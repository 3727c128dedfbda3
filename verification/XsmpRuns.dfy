/** Whole runs of the X session client against a session manager that follows the client diagram of
    section 9.1 of the X Session Management Protocol 1.0, and an application that answers each
    quit_requested once. */
module XsmpRuns {
  import opened Xsmp

  // ----- the protocol, independent of the client

  /** The diagram's states, as both sides can tell them from the messages exchanged. `Overdue` is the
      diagram's shutdown-cancelled: the client still has to send SaveYourselfDone. */
  datatype Phase = PIdle | PSaving | PInteractRequested | PInteracting | PDone | POverdue | PClosed

  datatype Event =
    | ReceiveSaveYourself(r: Request, listening: bool, lost: bool)
    | ReceiveInteract(listening: bool)
    | ReceiveDie
    | ReceiveSaveComplete
    | ReceiveShutdownCancelled
    | ConnectionLost
    | ApplicationAnswers(willQuit: bool)
    | MainLoopFires(id: nat, lost: bool)

  /** Messages the diagram lets the client receive. A client with an overdue reply is treated like an idle
      one, so that a session manager that does not insist on the reply is covered as well; and a SaveYourself may
      follow a reply at once, as the diagram has it after a save without shutdown. */
  predicate MayReceive(p: Phase, e: Event) {
    match e
    case ReceiveSaveYourself(_, _, _) => p == PIdle || p == POverdue || p == PDone
    case ReceiveInteract(_) => p == PInteractRequested
    case ReceiveDie => p == PIdle || p == PDone || p == POverdue
    case ReceiveSaveComplete => p == PDone
    case ReceiveShutdownCancelled => p == PSaving || p == PInteractRequested || p == PInteracting || p == PDone
    case ConnectionLost => p != PClosed
    case _ => true
  }

  function OnReceive(p: Phase, e: Event): Phase {
    match e
    case ReceiveSaveYourself(_, _, _) => PSaving
    case ReceiveInteract(_) => PInteracting
    case ReceiveDie => PClosed
    case ReceiveSaveComplete => PIdle
    case ReceiveShutdownCancelled => if p == PDone then PIdle else POverdue
    case ConnectionLost => PClosed
    case _ => p
  }

  predicate MaySend(p: Phase, m: Message) {
    match m
    case AskInteract(_) => p == PSaving
    case InteractDone(_) => p == PInteracting
    case SaveDone(_) => p == PSaving || p == POverdue
  }

  function OnSend(p: Phase, m: Message): Phase {
    match m
    case AskInteract(_) => PInteractRequested
    case InteractDone(_) => PSaving
    case SaveDone(_) => if p == POverdue then PIdle else PDone
  }

  predicate MaySendAll(p: Phase, ms: seq<Message>)
    decreases |ms|
  {
    ms == [] || (MaySend(p, ms[0]) && MaySendAll(OnSend(p, ms[0]), ms[1..]))
  }

  function OnSendAll(p: Phase, ms: seq<Message>): Phase
    decreases |ms|
  {
    if ms == [] then p else OnSendAll(OnSend(p, ms[0]), ms[1..])
  }

  function SaveDones(ms: seq<Message>): nat {
    if ms == [] then 0 else (if ms[0].SaveDone? then 1 else 0) + SaveDones(ms[1..])
  }

  // ----- the world: the client, the protocol, the application, and what has been counted

  datatype World = World(
    c: Client,
    phase: Phase,
    interacting: bool,   // the application has been asked and has not answered
    received: nat,       // SaveYourself messages
    answered: nat,       // SaveYourselfDone messages
    dropped: nat)        // deferred saves forgotten because of a second cancellation

  function Start(expecting: bool): World {
    World(Started(expecting), PIdle, false, 0, 0, 0)
  }

  ghost predicate Enabled(w: World, e: Event) {
    MayReceive(w.phase, e)
    && (e.ApplicationAnswers? ==> w.interacting)
    && (e.MainLoopFires? ==> e.id in w.c.loop.sources)
  }

  function Apply(c: Client, e: Event): Client
    requires e.MainLoopFires? ==> e.id in c.loop.sources
  {
    match e
    case ReceiveSaveYourself(r, listening, lost) => AfterSaveYourself(c, r, listening, lost)
    case ReceiveInteract(listening) => AfterInteract(c, listening)
    case ReceiveDie => AfterDie(c)
    case ReceiveSaveComplete => AfterSaveComplete(c)
    case ReceiveShutdownCancelled => AfterShutdownCancelled(c)
    case ConnectionLost => AfterDisconnect(c)
    case ApplicationAnswers(willQuit) => AfterWillQuit(c, willQuit)
    case MainLoopFires(id, lost) => AfterFire(c, id, lost)
  }

  /** One step; whatever the client sends or emits in it is taken by the other side. */
  function Next(w: World, e: Event): World
    requires e.MainLoopFires? ==> e.id in w.c.loop.sources
  {
    var c := Apply(w.c, e);
    World(
      c.(sent := [], emitted := []),
      if c.connected then OnSendAll(OnReceive(w.phase, e), c.sent) else PClosed,
      QuitRequested in c.emitted || (w.interacting && !e.ApplicationAnswers?),
      w.received + (if e.ReceiveSaveYourself? then 1 else 0),
      w.answered + SaveDones(c.sent),
      w.dropped + (if e.ReceiveShutdownCancelled? && w.c.todo.save then 1 else 0))
  }

  /** A run from start-up: the worlds before and after each event. */
  ghost predicate Run(worlds: seq<World>, events: seq<Event>) {
    && |worlds| == |events| + 1
    && (exists expecting :: worlds[0] == Start(expecting))
    && forall i {:trigger events[i]} :: 0 <= i < |events| ==>
         Enabled(worlds[i], events[i]) && worlds[i + 1] == Next(worlds[i], events[i])
  }

  // ----- what every rest point satisfies

  /** The state of the connected client and the diagram agree; SAVE_YOURSELF is never a rest state. */
  ghost predicate InStep(c: Client, p: Phase) {
    match c.state
    case Idle => p == PIdle || p == POverdue
    case SaveYourself => false
    case InteractRequest => p == PInteractRequested
    case Interact => p == PInteracting
    case SaveYourselfDone => p == PDone
    case ShutdownCancelled => if c.todo.save then p == PSaving else p == PIdle || p == POverdue
    case ConnectionClosed => false
  }

  /** At most one idle source is armed, and it is the one the client remembers. */
  ghost predicate OneSource(l: Loop) {
    l.idle < l.next && (if l.idle == 0 then l.sources == map[] else l.sources.Keys == {l.idle})
  }

  ghost predicate NoLostWakeUp(c: Client) {
    var armed := c.loop.idle in c.loop.sources;
    (c.todo.save ==> c.state == ShutdownCancelled && c.connected)
    && (c.todo.save || c.todo.quit || c.todo.quitCancelled ==> armed)
    && (c.todo.initial && c.connected ==> armed)
    && (armed ==> (c.loop.sources[c.loop.idle] == InitialProperties <==> c.todo.initial))
  }

  ghost predicate AskedOnce(w: World) {
    (w.interacting ==> w.c.state == Interact || w.c.state == ShutdownCancelled || w.c.state == ConnectionClosed)
    && (w.c.state == Interact ==> w.interacting)
    && (w.c.state == ShutdownCancelled ==> w.interacting != w.c.todo.quitCancelled)
    && (w.c.todo.quitCancelled ==> !w.interacting && (w.c.state == ShutdownCancelled || w.c.state == ConnectionClosed))
    && (w.c.todo.quit ==> !w.interacting && !w.c.todo.quitCancelled && w.c.state == ConnectionClosed)
  }

  /** Before the initial properties are set, and before the first SaveYourself, nothing else has happened,
      except perhaps losing the connection. */
  ghost predicate StillStarting(w: World) {
    w.c.todo.initial || w.c.save.expectingInitial ==>
      && !w.interacting && !w.c.todo.save && !w.c.todo.quit && !w.c.todo.quitCancelled
      && (w.c.state == Idle || w.c.state == ConnectionClosed)
  }

  function Owed(p: Phase): nat {
    if p == PSaving || p == PInteractRequested || p == PInteracting then 1 else 0
  }

  ghost predicate Inv(w: World) {
    && w.c.sent == [] && w.c.emitted == []
    && OneSource(w.c.loop) && NoLostWakeUp(w.c) && AskedOnce(w) && StillStarting(w)
    && (if w.c.connected
        then InStep(w.c, w.phase) && w.received == w.answered + w.dropped + Owed(w.phase)
        else w.phase == PClosed && (w.c.state == ConnectionClosed || w.c.state == Idle))
  }

  lemma StartInv(expecting: bool)
    ensures Inv(Start(expecting))
  {
  }

  lemma ShortSends(p: Phase, ms: seq<Message>)
    ensures ms == [] ==> OnSendAll(p, ms) == p && SaveDones(ms) == 0 && MaySendAll(p, ms)
    ensures |ms| == 1 ==> OnSendAll(p, ms) == OnSend(p, ms[0]) && SaveDones(ms) == (if ms[0].SaveDone? then 1 else 0)
                          && MaySendAll(p, ms) == MaySend(p, ms[0])
    ensures |ms| == 2 ==> OnSendAll(p, ms) == OnSend(OnSend(p, ms[0]), ms[1])
                          && SaveDones(ms) == (if ms[0].SaveDone? then 1 else 0) + (if ms[1].SaveDone? then 1 else 0)
                          && MaySendAll(p, ms) == (MaySend(p, ms[0]) && MaySend(OnSend(p, ms[0]), ms[1]))
    decreases |ms|
  {
    if |ms| == 1 {
      assert ms[1..] == [];
    } else if |ms| == 2 {
      ShortSends(OnSend(p, ms[0]), ms[1..]);
    }
  }

  /** Every step keeps the invariant, and sends only what the diagram allows. */
  ghost predicate Kept(w: World, e: Event)
    requires e.MainLoopFires? ==> e.id in w.c.loop.sources
  {
    Inv(Next(w, e))
    && MaySendAll(OnReceive(w.phase, e), Apply(w.c, e).sent)
    && (QuitRequested in Apply(w.c, e).emitted ==> !w.interacting)
  }

  /** What starting to process a SaveYourself comes to when it is not deferred. */
  lemma DoSaveOutcome(c: Client, lost: bool)
    requires c.connected && c.state == Idle && !c.todo.save
    ensures var d := AfterDoSave(c, lost);
            && d.save == c.save && d.todo == c.todo
            && (QuitRequested in d.emitted <==> QuitRequested in c.emitted)
            && (if d.connected
                then d.loop == c.loop
                     && ((d.state == InteractRequest && d.sent == c.sent + [AskInteract(c.save.errors)])
                         || (d.state == SaveYourselfDone && d.sent == c.sent + [SaveDone(true)]))
                else d.loop == Update(c.loop, c.todo) && d.state == ConnectionClosed && d.sent == c.sent)
  {
  }

  lemma SaveYourselfDeferred(w: World, e: Event)
    requires Inv(w) && Enabled(w, e) && e.ReceiveSaveYourself? && w.c.state == ShutdownCancelled
    ensures Kept(w, e)
  {
    ShortSends(OnReceive(w.phase, e), Apply(w.c, e).sent);
  }

  lemma SaveYourselfSkipped(w: World, e: Event)
    requires Inv(w) && Enabled(w, e) && e.ReceiveSaveYourself? && w.c.state == Idle
    requires w.c.save.expectingInitial && IsInitial(e.r)
    ensures Kept(w, e)
  {
    ShortSends(OnReceive(w.phase, e), Apply(w.c, e).sent);
    hide AfterDoSave, Plan, IsInitial;
  }

  lemma SaveYourselfStarted(w: World, e: Event)
    requires Inv(w) && Enabled(w, e) && e.ReceiveSaveYourself? && w.c.state == Idle
    requires !(w.c.save.expectingInitial && IsInitial(e.r))
    ensures Kept(w, e)
  {
    ShortSends(OnReceive(w.phase, e), Apply(w.c, e).sent);
    var c1 := if w.c.todo.initial then AfterInitialProperties(w.c) else w.c;
    DoSaveOutcome(c1.(save := Plan(e.r, e.listening)), e.lost);
    hide AfterDoSave, Plan, IsInitial;
  }

  lemma InteractAsks(w: World, e: Event)
    requires Inv(w) && Enabled(w, e) && e.ReceiveInteract? && e.listening
    ensures Kept(w, e)
  {
    ShortSends(OnReceive(w.phase, e), Apply(w.c, e).sent);
    hide AfterBroken, AfterWillQuit;
  }

  /** Answering for an application that does not listen. */
  lemma AnsweredOutcome(c: Client)
    requires c.state == Interact
    ensures var d := AfterWillQuit(c, true);
            && d == c.(state := SaveYourselfDone, sent := d.sent, emitted := d.emitted)
            && d.sent == c.sent + [InteractDone(false)] + [SaveDone(true)]
            && (QuitRequested in d.emitted <==> QuitRequested in c.emitted)
  {
  }

  lemma InteractAnswers(w: World, e: Event)
    requires Inv(w) && Enabled(w, e) && e.ReceiveInteract? && !e.listening
    ensures Kept(w, e)
  {
    hide AfterWillQuit, AfterBroken;
    AnsweredOutcome(w.c.(state := Interact));
    ShortSends(OnReceive(w.phase, e), Apply(w.c, e).sent);
  }

  lemma ServerKeeps(w: World, e: Event)
    requires Inv(w) && Enabled(w, e)
    requires e.ReceiveDie? || e.ReceiveSaveComplete? || e.ConnectionLost?
    ensures Kept(w, e)
  {
    ShortSends(OnReceive(w.phase, e), Apply(w.c, e).sent);
  }

  lemma ShutdownCancelledKeeps(w: World, e: Event)
    requires Inv(w) && Enabled(w, e) && e.ReceiveShutdownCancelled?
    ensures Kept(w, e)
  {
    ShortSends(OnReceive(w.phase, e), Apply(w.c, e).sent);
  }

  lemma AnswerKeeps(w: World, e: Event)
    requires Inv(w) && Enabled(w, e) && e.ApplicationAnswers?
    ensures Kept(w, e)
  {
    ShortSends(OnReceive(w.phase, e), Apply(w.c, e).sent);
  }

  lemma FireKeeps(w: World, e: Event)
    requires Inv(w) && Enabled(w, e) && e.MainLoopFires?
    ensures Kept(w, e)
  {
    ShortSends(OnReceive(w.phase, e), Apply(w.c, e).sent);
    if w.c.todo.save && w.c.todo.quitCancelled {
      var c1 := Emit(w.c.(loop := w.c.loop.(idle := 0)), QuitCancelled);
      DoSaveOutcome(c1.(todo := w.c.todo.(quitCancelled := false, save := false), state := Idle), e.lost);
    }
  }

  lemma SaveYourselfAgain(w: World, e: Event)
    requires Inv(w) && Enabled(w, e) && e.ReceiveSaveYourself? && w.c.state == SaveYourselfDone
    ensures Kept(w, e)
  {
    ShortSends(OnReceive(w.phase, e), Apply(w.c, e).sent);
  }

  lemma SaveYourselfStates(w: World, e: Event)
    requires Inv(w) && Enabled(w, e) && e.ReceiveSaveYourself?
    ensures w.c.state == Idle || w.c.state == ShutdownCancelled || w.c.state == SaveYourselfDone
  {
  }

  lemma StepKeeps(w: World, e: Event)
    requires Inv(w) && Enabled(w, e)
    ensures Kept(w, e)
  {
    hide *;
    match e
    case ReceiveSaveYourself(_, _, _) =>
      if w.c.state == Idle && w.c.save.expectingInitial && IsInitial(e.r) {
        SaveYourselfSkipped(w, e);
      } else if w.c.state == Idle {
        SaveYourselfStarted(w, e);
      } else if w.c.state == SaveYourselfDone {
        SaveYourselfAgain(w, e);
      } else {
        SaveYourselfStates(w, e);
        SaveYourselfDeferred(w, e);
      }
    case ReceiveInteract(listening) =>
      if listening {
        InteractAsks(w, e);
      } else {
        InteractAnswers(w, e);
      }
    case ApplicationAnswers(_) => AnswerKeeps(w, e);
    case MainLoopFires(_, _) => FireKeeps(w, e);
    case ReceiveShutdownCancelled => ShutdownCancelledKeeps(w, e);
    case _ => ServerKeeps(w, e);
  }

  // ----- whole runs

  lemma {:induction false} RunKeepsInv(worlds: seq<World>, events: seq<Event>, i: nat)
    requires Run(worlds, events) && i < |worlds|
    ensures Inv(worlds[i])
  {
    hide Enabled, Next, Start, Inv;
    if i == 0 {
      var expecting :| worlds[0] == Start(expecting);
      StartInv(expecting);
    } else {
      RunKeepsInv(worlds, events, i - 1);
      var e := events[i - 1];
      StepKeepsInv(worlds[i - 1], e);
    }
  }

  lemma StepKeepsInv(w: World, e: Event)
    requires Inv(w) && Enabled(w, e)
    ensures Inv(Next(w, e))
  {
    hide Inv, Enabled, Next;
    StepKeeps(w, e);
  }

  /** In every run, the application is never asked again while it still owes an answer, and the client
      never sends a message the diagram forbids. */
  lemma NeverAskedAgain(worlds: seq<World>, events: seq<Event>, i: nat)
    requires Run(worlds, events) && i < |events|
    ensures var w, c := worlds[i], Apply(worlds[i].c, events[i]);
            && (QuitRequested in c.emitted ==> !w.interacting)
            && MaySendAll(OnReceive(w.phase, events[i]), c.sent)
            && (w.c.state == ShutdownCancelled ==> w.interacting != w.c.todo.quitCancelled)
  {
    hide Start, Apply;
    RunKeepsInv(worlds, events, i);
    StepKeeps(worlds[i], events[i]);
  }

  /** In every run, while connected, each SaveYourself has been answered, or dropped by a second
      cancellation, or is the one being worked on; and SAVE_YOURSELF is never a rest state. */
  lemma EveryReplyAccounted(worlds: seq<World>, events: seq<Event>, i: nat)
    requires Run(worlds, events) && i < |worlds| && worlds[i].c.connected
    ensures var w := worlds[i];
            && w.c.state != SaveYourself
            && w.received == w.answered + w.dropped
                 + if w.c.state == InteractRequest || w.c.state == Interact || w.c.todo.save then 1 else 0
  {
    RunKeepsInv(worlds, events, i);
    hide Run;
  }

  /** In every run at most one source is armed, and whatever is on the todo list has one that will see to it. */
  lemma NothingForgotten(worlds: seq<World>, events: seq<Event>, i: nat)
    requires Run(worlds, events) && i < |worlds|
    ensures var c := worlds[i].c;
            && c.loop.sources.Keys == (if c.loop.idle == 0 then {} else {c.loop.idle})
            && (c.todo.save ==> c.state == ShutdownCancelled)
            && (c.todo.save || c.todo.quit || c.todo.quitCancelled ==>
                  c.loop.idle in c.loop.sources && c.loop.sources[c.loop.idle] == PendingEvents)
            && (c.todo.initial && c.connected ==>
                  c.loop.idle in c.loop.sources && c.loop.sources[c.loop.idle] == InitialProperties)
  {
    RunKeepsInv(worlds, events, i);
    hide Run;
  }

  /** Firing the armed source does the work: a pending quit or quit_cancelled is emitted, and once
      quit_cancelled is out a deferred save is no longer deferred. */
  lemma WakeUpServes(w: World, lost: bool)
    requires Inv(w) && (w.c.todo.quit || w.c.todo.quitCancelled)
    ensures w.c.loop.idle in w.c.loop.sources
    ensures var c := Apply(w.c, MainLoopFires(w.c.loop.idle, lost));
            && !c.todo.quit && !c.todo.quitCancelled && !c.todo.save
            && c.emitted != [] && c.emitted[0] == (if w.c.todo.quit then Quit else QuitCancelled)
            && (w.c.todo.save ==> c.state == InteractRequest || c.state == SaveYourselfDone || !c.connected)
  {
  }

  // ----- what the assumptions are for

  predicate IsLogout(r: Request) {
    r.shutdown && r.interact != InteractNone
  }

  /** From any idle rest point a logout gets the application asked: two steps the diagram allows. */
  lemma LogoutAsks(w: World, r: Request)
    requires Inv(w) && w.c.connected && w.c.state == Idle && IsLogout(r)
    ensures var ask := ReceiveSaveYourself(r, true, false);
            && Enabled(w, ask) && Enabled(Next(w, ask), ReceiveInteract(true))
            && Next(Next(w, ask), ReceiveInteract(true)).c.state == Interact
            && QuitRequested in Apply(Next(w, ask).c, ReceiveInteract(true)).emitted
  {
    var ask := ReceiveSaveYourself(r, true, false);
    ShortSends(PSaving, Apply(w.c, ask).sent);
    DoSaveOutcome((if w.c.todo.initial then AfterInitialProperties(w.c) else w.c).(save := Plan(r, true)), false);
  }

  /** A request that follows a reply without a SaveComplete between them, as the diagram allows after a save
      without shutdown, is answered at once, even a logout: the application is not asked. */
  lemma LogoutAfterReplyIsNotAsked(w: World, r: Request, listening: bool, lost: bool)
    requires Inv(w) && w.c.connected && w.c.state == SaveYourselfDone
    ensures var e := ReceiveSaveYourself(r, listening, lost);
            && Enabled(w, e)
            && Apply(w.c, e).sent == [SaveDone(true)] && Apply(w.c, e).emitted == []
            && Next(w, e).c.state == SaveYourselfDone && Next(w, e).c.connected && !Next(w, e).interacting
  {
  }

  /** Every received SaveYourself gets its reply except one that is still deferred when it is cancelled:
      the client then owes a reply it will never send. */
  lemma CancelledDeferralIsNeverAnswered(w: World)
    requires Inv(w) && w.c.connected && w.c.todo.save
    ensures Enabled(w, ReceiveShutdownCancelled)
    ensures var d := Next(w, ReceiveShutdownCancelled);
            d.dropped == w.dropped + 1 && d.answered == w.answered && d.phase == POverdue
  {
  }

  /** And a save does get deferred: a logout is cancelled while the application interacts, and the next
      SaveYourself arrives before it has answered. */
  lemma DeferralIsReached(w: World, r: Request, listening: bool, lost: bool)
    requires Inv(w) && w.c.connected && w.c.state == Interact
    ensures Enabled(w, ReceiveShutdownCancelled)
    ensures var v := Next(w, ReceiveShutdownCancelled);
            var e := ReceiveSaveYourself(r, listening, lost);
            Enabled(v, e) && Next(v, e).c.todo.save && Next(v, e).c.connected && Inv(Next(v, e))
  {
    ShutdownCancelledKeeps(w, ReceiveShutdownCancelled);
    var v := Next(w, ReceiveShutdownCancelled);
    ShortSends(OnReceive(w.phase, ReceiveShutdownCancelled), Apply(w.c, ReceiveShutdownCancelled).sent);
    SaveYourselfDeferred(v, ReceiveSaveYourself(r, listening, lost));
  }

  // ----- the callbacks of the class are the steps of the runs

  method Perform(x: XsmpClient, e: Event)
    requires ValidIds(x.Model().loop)
    requires e.MainLoopFires? ==> e.id in x.sources
    modifies x
    ensures x.Model() == Apply(old(x.Model()), e)
  {
    match e
    case ReceiveSaveYourself(r, listening, lost) => x.OnSaveYourself(r, listening, lost);
    case ReceiveInteract(listening) => x.OnInteract(listening);
    case ReceiveDie => x.OnDie();
    case ReceiveSaveComplete => x.OnSaveComplete();
    case ReceiveShutdownCancelled => x.OnShutdownCancelled();
    case ConnectionLost => x.Disconnect();
    case ApplicationAnswers(willQuit) => x.WillQuit(willQuit);
    case MainLoopFires(id, lost) => x.Fire(id, lost);
  }

  /** A client that has already sent and emitted something. */
  function Earlier(c: Client, sent: seq<Message>, emitted: seq<Signal>): Client {
    c.(sent := sent + c.sent, emitted := emitted + c.emitted)
  }

  lemma SendEarlier(c: Client, ms: seq<Message>, ss: seq<Signal>, m: Message)
    ensures Send(Earlier(c, ms, ss), m) == Earlier(Send(c, m), ms, ss)
  {
    assert ms + c.sent + [m] == ms + (c.sent + [m]);
  }

  lemma EmitEarlier(c: Client, ms: seq<Message>, ss: seq<Signal>, s: Signal)
    ensures Emit(Earlier(c, ms, ss), s) == Earlier(Emit(c, s), ms, ss)
  {
    assert ss + c.emitted + [s] == ss + (c.emitted + [s]);
  }

  lemma DoSaveEarlier(c: Client, ms: seq<Message>, ss: seq<Signal>, lost: bool)
    ensures AfterDoSave(Earlier(c, ms, ss), lost) == Earlier(AfterDoSave(c, lost), ms, ss)
  {
    SendEarlier(c, ms, ss, AskInteract(c.save.errors));
    SendEarlier(c, ms, ss, SaveDone(true));
    var c1 := c.(state := SaveYourself);
    EmitEarlier(c1, ms, ss, SaveState);
    SendEarlier(AfterSaveState(c, lost), ms, ss, SaveDone(true));
    hide Send, Emit;
  }

  lemma BrokenEarlier(c: Client, ms: seq<Message>, ss: seq<Signal>, interactDone: bool, saveDone: bool)
    ensures AfterBroken(Earlier(c, ms, ss), interactDone, saveDone)
         == Earlier(AfterBroken(c, interactDone, saveDone), ms, ss)
  {
    var c1 := SetTodo(c, c.todo.(save := false));
    SendEarlier(c1, ms, ss, InteractDone(false));
    SendEarlier(c1, ms, ss, SaveDone(true));
    SendEarlier(Send(c1, InteractDone(false)), ms, ss, SaveDone(true));
    hide Send;
  }

  lemma SaveYourselfEarlier(c: Client, ms: seq<Message>, ss: seq<Signal>, r: Request, listening: bool, lost: bool)
    ensures AfterSaveYourself(Earlier(c, ms, ss), r, listening, lost)
         == Earlier(AfterSaveYourself(c, r, listening, lost), ms, ss)
  {
    BrokenEarlier(c, ms, ss, false, true);
    var c1 := if c.todo.initial then AfterInitialProperties(c) else c;
    SendEarlier(c1, ms, ss, SaveDone(true));
    DoSaveEarlier(c1.(save := Plan(r, listening)), ms, ss, lost);
    hide Send, AfterDoSave, AfterBroken, Plan, IsInitial;
  }

  lemma WillQuitEarlier(c: Client, ms: seq<Message>, ss: seq<Signal>, willQuit: bool)
    ensures AfterWillQuit(Earlier(c, ms, ss), willQuit) == Earlier(AfterWillQuit(c, willQuit), ms, ss)
  {
    var c1 := Send(c, InteractDone(!willQuit));
    SendEarlier(c, ms, ss, InteractDone(!willQuit));
    EmitEarlier(c1.(state := SaveYourself), ms, ss, SaveState);
    SendEarlier(c1, ms, ss, SaveDone(willQuit));
    SendEarlier(AfterSaveState(c1, false), ms, ss, SaveDone(willQuit));
    hide Send, Emit;
  }

  lemma InteractEarlier(c: Client, ms: seq<Message>, ss: seq<Signal>, listening: bool)
    ensures AfterInteract(Earlier(c, ms, ss), listening) == Earlier(AfterInteract(c, listening), ms, ss)
  {
    BrokenEarlier(c, ms, ss, true, true);
    EmitEarlier(c, ms, ss, QuitRequested);
    WillQuitEarlier(c.(state := Interact), ms, ss, true);
    hide Send, Emit, AfterBroken, AfterWillQuit;
  }

  lemma ServerEarlier(c: Client, ms: seq<Message>, ss: seq<Signal>)
    ensures AfterDie(Earlier(c, ms, ss)) == Earlier(AfterDie(c), ms, ss)
    ensures AfterSaveComplete(Earlier(c, ms, ss)) == Earlier(AfterSaveComplete(c), ms, ss)
    ensures AfterShutdownCancelled(Earlier(c, ms, ss)) == Earlier(AfterShutdownCancelled(c), ms, ss)
  {
    EmitEarlier(AfterDisconnect(c), ms, ss, Quit);
    BrokenEarlier(c, ms, ss, false, false);
    var c1 := c.(save := c.save.(shuttingDown := false));
    EmitEarlier(c1, ms, ss, QuitCancelled);
    SendEarlier(c1, ms, ss, SaveDone(false));
    hide Send, Emit, AfterBroken;
  }

  lemma PendingEarlier(c: Client, ms: seq<Message>, ss: seq<Signal>, lost: bool)
    ensures AfterPendingEvents(Earlier(c, ms, ss), lost) == Earlier(AfterPendingEvents(c, lost), ms, ss)
  {
    var c0 := c.(loop := c.loop.(idle := 0));
    EmitEarlier(c0, ms, ss, Quit);
    EmitEarlier(c0, ms, ss, QuitCancelled);
    var c1 := if c.todo.quitCancelled
              then Emit(c0, QuitCancelled).(todo := c.todo.(quitCancelled := false), state := Idle) else c0;
    DoSaveEarlier(c1.(todo := c1.todo.(save := false)), ms, ss, lost);
    hide Emit, AfterDoSave;
  }

  /** What a client does next does not depend on what it has sent and emitted, which it only adds to. */
  lemma ApplyEarlier(c: Client, ms: seq<Message>, ss: seq<Signal>, e: Event)
    requires e.MainLoopFires? ==> e.id in c.loop.sources
    ensures Apply(Earlier(c, ms, ss), e) == Earlier(Apply(c, e), ms, ss)
  {
    match e
    case ReceiveSaveYourself(r, listening, lost) => SaveYourselfEarlier(c, ms, ss, r, listening, lost);
    case ReceiveInteract(listening) => InteractEarlier(c, ms, ss, listening);
    case ApplicationAnswers(willQuit) => WillQuitEarlier(c, ms, ss, willQuit);
    case MainLoopFires(_, lost) =>
      PendingEarlier(c, ms, ss, lost);
      hide AfterPendingEvents;
    case ConnectionLost =>
    case _ => ServerEarlier(c, ms, ss);
  }

  /** Everything sent in the first n steps of a run, and everything emitted. */
  ghost function SentBy(worlds: seq<World>, events: seq<Event>, n: nat): seq<Message>
    requires Run(worlds, events) && n <= |events|
  {
    if n == 0 then [] else SentBy(worlds, events, n - 1) + Apply(worlds[n - 1].c, events[n - 1]).sent
  }

  ghost function EmittedBy(worlds: seq<World>, events: seq<Event>, n: nat): seq<Signal>
    requires Run(worlds, events) && n <= |events|
  {
    if n == 0 then [] else EmittedBy(worlds, events, n - 1) + Apply(worlds[n - 1].c, events[n - 1]).emitted
  }

  /** The client after n steps of a run, with all it has sent and emitted. */
  ghost function ClientAfter(worlds: seq<World>, events: seq<Event>, n: nat): Client
    requires Run(worlds, events) && n <= |events|
  {
    Earlier(worlds[n].c, SentBy(worlds, events, n), EmittedBy(worlds, events, n))
  }

  lemma ClientStep(worlds: seq<World>, events: seq<Event>, n: nat)
    requires Run(worlds, events) && n < |events|
    ensures var e := events[n];
            && (e.MainLoopFires? ==> e.id in worlds[n].c.loop.sources)
            && ClientAfter(worlds, events, n + 1) == Apply(ClientAfter(worlds, events, n), e)
            && ValidIds(worlds[n].c.loop)
  {
    hide Apply, Inv, Start;
    RunKeepsInv(worlds, events, n);
    InvIds(worlds[n]);
    var w, e := worlds[n], events[n];
    var d := Apply(w.c, e);
    assert worlds[n + 1].c == d.(sent := [], emitted := []);
    ApplyEarlier(w.c, SentBy(worlds, events, n), EmittedBy(worlds, events, n), e);
    hide Run;
    var ms, ss := SentBy(worlds, events, n), EmittedBy(worlds, events, n);
    assert ms + d.sent + [] == ms + d.sent && ss + d.emitted + [] == ss + d.emitted;
  }

  lemma InvIds(w: World)
    requires Inv(w)
    ensures ValidIds(w.c.loop)
  {
  }

  /** The runs are runs of the class: its callbacks, called for the events of a run, take a newly started client
      through the run's worlds. */
  method Replay(x: XsmpClient, ghost worlds: seq<World>, events: seq<Event>)
    requires Run(worlds, events) && x.Model() == worlds[0].c
    modifies x
    ensures x.Model() == ClientAfter(worlds, events, |events|)
  {
    hide Run, Apply, Earlier;
    StartClean(worlds, events);
    var n := 0;
    while n < |events|
      invariant 0 <= n <= |events| && Run(worlds, events) && |worlds| == |events| + 1
      invariant x.Model() == ClientAfter(worlds, events, n) && x.Model().loop == worlds[n].c.loop
    {
      ClientStep(worlds, events, n);
      Perform(x, events[n]);
      n := n + 1;
      LoopAfter(worlds, events, n);
    }
  }

  lemma StartClean(worlds: seq<World>, events: seq<Event>)
    requires Run(worlds, events)
    ensures |worlds| == |events| + 1 && ClientAfter(worlds, events, 0) == worlds[0].c
  {
    var c := worlds[0].c;
    assert [] + c.sent == c.sent && [] + c.emitted == c.emitted;
  }

  lemma LoopAfter(worlds: seq<World>, events: seq<Event>, n: nat)
    requires Run(worlds, events) && n <= |events|
    ensures ClientAfter(worlds, events, n).loop == worlds[n].c.loop
  {
  }
}
