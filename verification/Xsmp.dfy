/** The X session client of eggsmclient-xsmp.c: its fields, its callbacks, and what each callback does. */
module Xsmp {

  datatype State =
    | Idle | SaveYourself | InteractRequest | Interact | SaveYourselfDone | ShutdownCancelled | ConnectionClosed

  datatype SaveType = SaveGlobal | SaveLocal | SaveBoth
  datatype InteractStyle = InteractNone | InteractErrors | InteractAny

  /** The fields of a SaveYourself message. */
  datatype Request = Request(saveType: SaveType, shutdown: bool, interact: InteractStyle, fast: bool)

  /** What the client sends to the session manager. */
  datatype Message = AskInteract(errors: bool) | InteractDone(cancelShutdown: bool) | SaveDone(success: bool)

  /** What the client emits to the application. */
  datatype Signal = QuitRequested | QuitCancelled | Quit | SaveState

  /** The two callbacks the client ever hands to the main loop. */
  datatype Source = InitialProperties | PendingEvents

  /** The current SaveYourself. */
  datatype Save = Save(expectingInitial: bool, needState: bool, needQuit: bool, errors: bool, shuttingDown: bool)

  /** The todo list. */
  datatype Todo = Todo(initial: bool, quit: bool, quitCancelled: bool, save: bool)

  /** The main loop's sources, and the id the client remembers (0 for none). */
  datatype Loop = Loop(idle: nat, sources: map<nat, Source>, next: nat)

  /** All fields of the client, and everything sent and emitted so far; `properties` counts how often the initial
      properties have been set. */
  datatype Client = Client(connected: bool, state: State, save: Save, todo: Todo, loop: Loop,
                           sent: seq<Message>, emitted: seq<Signal>, properties: nat)

  // ----- what each callback does to the client

  /** GLib never hands out source id 0. */
  predicate ValidIds(l: Loop) {
    0 !in l.sources && l.next > 0
  }

  function Disarm(l: Loop): (r: Loop)
    ensures ValidIds(l) ==> ValidIds(r)
  {
    Loop(0, l.sources - {l.idle}, l.next)
  }

  function Arm(l: Loop, source: Source): (r: Loop)
    ensures ValidIds(l) ==> ValidIds(r)
  {
    Loop(l.next, l.sources[l.next := source], l.next + 1)
  }

  /** update_pending_events: a source is armed when one is wanted and none is remembered, and
      whichever source is remembered is removed when none is wanted. */
  function Update(l: Loop, todo: Todo): (r: Loop)
    ensures ValidIds(l) ==> ValidIds(r)
  {
    if !(todo.quit || todo.quitCancelled || todo.save) then Disarm(l)
    else if l.idle == 0 then Arm(l, PendingEvents) else l
  }

  function Send(c: Client, m: Message): Client {
    c.(sent := c.sent + [m])
  }

  function Emit(c: Client, s: Signal): Client {
    c.(emitted := c.emitted + [s])
  }

  function SetTodo(c: Client, todo: Todo): (after: Client)
    ensures ValidIds(c.loop) ==> ValidIds(after.loop)
  {
    c.(todo := todo, loop := Update(c.loop, todo))
  }

  function AfterInitialProperties(c: Client): (after: Client)
    ensures ValidIds(c.loop) ==> ValidIds(after.loop)
  {
    SetTodo(c.(loop := Disarm(c.loop), properties := c.properties + 1), c.todo.(initial := false))
  }

  function AfterDisconnect(c: Client): (after: Client)
    ensures ValidIds(c.loop) ==> ValidIds(after.loop)
  {
    if c.connected
    then SetTodo(c.(connected := false, state := ConnectionClosed), c.todo.(save := false))
    else c
  }

  /** save_state: `lost` when the connection goes away while the application saves. */
  function AfterSaveState(c: Client, lost: bool): (after: Client)
    ensures ValidIds(c.loop) ==> ValidIds(after.loop)
  {
    var c1 := Emit(c.(state := SaveYourself), SaveState);
    if lost then AfterDisconnect(c1) else c1
  }

  function AfterDoSave(c: Client, lost: bool): (after: Client)
    ensures ValidIds(c.loop) ==> ValidIds(after.loop)
  {
    if c.state == ShutdownCancelled then SetTodo(c, c.todo.(save := true))
    else if c.save.needQuit then Send(c, AskInteract(c.save.errors)).(state := InteractRequest)
    else if !c.save.needState then Send(c, SaveDone(true)).(state := SaveYourselfDone)
    else
      var c1 := AfterSaveState(c, lost);
      if !c1.connected then c1 else Send(c1, SaveDone(true)).(state := SaveYourselfDone)
  }

  function AfterBroken(c: Client, interactDone: bool, saveDone: bool): (after: Client)
    ensures ValidIds(c.loop) ==> ValidIds(after.loop)
  {
    var c1 := SetTodo(c, c.todo.(save := false));
    var c2 := if interactDone then Send(c1, InteractDone(false)) else c1;
    if saveDone then Send(c2, SaveDone(true)).(state := SaveYourselfDone) else c2.(state := Idle)
  }

  /** The request a newly registered client gets right after connecting. */
  predicate IsInitial(r: Request) {
    r == Request(SaveLocal, false, InteractNone, false)
  }

  /** What the table in xsmp_save_yourself makes of a request; `listening` when the application
      has a handler for quit_requested. */
  function Plan(r: Request, listening: bool): Save {
    Save(false, r.saveType != SaveGlobal, r.shutdown && listening && r.interact != InteractNone,
         r.interact == InteractErrors, r.shutdown)
  }

  function AfterSaveYourself(c: Client, r: Request, listening: bool, lost: bool): (after: Client)
    ensures ValidIds(c.loop) ==> ValidIds(after.loop)
  {
    if c.state != Idle && c.state != ShutdownCancelled then AfterBroken(c, false, true)
    else
      var c1 := if c.todo.initial then AfterInitialProperties(c) else c;
      if c1.save.expectingInitial && IsInitial(r)
      then Send(c1, SaveDone(true)).(state := SaveYourselfDone, save := c1.save.(expectingInitial := false))
      else AfterDoSave(c1.(save := Plan(r, listening)), lost)
  }

  function AfterWillQuit(c: Client, willQuit: bool): (after: Client)
    ensures ValidIds(c.loop) ==> ValidIds(after.loop)
  {
    if c.state == ConnectionClosed then SetTodo(c, c.todo.(quit := true))
    else if c.state == ShutdownCancelled then SetTodo(c, c.todo.(quitCancelled := true))
    else if c.state != Interact then c
    else
      var c1 := Send(c, InteractDone(!willQuit));
      var c2 := if willQuit && c.save.needState then AfterSaveState(c1, false) else c1;
      Send(c2, SaveDone(willQuit)).(state := SaveYourselfDone)
  }

  function AfterInteract(c: Client, listening: bool): (after: Client)
    ensures ValidIds(c.loop) ==> ValidIds(after.loop)
  {
    if c.state != InteractRequest then AfterBroken(c, true, true)
    else if listening then Emit(c, QuitRequested).(state := Interact)
    else AfterWillQuit(c.(state := Interact), true)
  }

  function AfterDie(c: Client): Client {
    Emit(AfterDisconnect(c), Quit)
  }

  function AfterSaveComplete(c: Client): Client {
    if c.state == SaveYourselfDone then c.(state := Idle) else AfterBroken(c, false, false)
  }

  function AfterShutdownCancelled(c: Client): Client {
    var c1 := c.(save := c.save.(shuttingDown := false));
    if c.state == SaveYourselfDone then Emit(c1, QuitCancelled).(state := Idle)
    else if c.state == ShutdownCancelled then SetTodo(c1, c1.todo.(save := false))
    else Send(c1, SaveDone(false)).(state := if c.state == Interact then ShutdownCancelled else Idle)
  }

  /** The middle of idle_do_pending_events: quit_cancelled, if it is pending. */
  function AfterTelling(c: Client): Client {
    if c.todo.quitCancelled
    then Emit(c, QuitCancelled).(todo := c.todo.(quitCancelled := false), state := Idle) else c
  }

  function AfterPendingEvents(c: Client, lost: bool): (after: Client)
    ensures ValidIds(c.loop) ==> ValidIds(after.loop)
  {
    var c0 := c.(loop := c.loop.(idle := 0));
    if c.todo.quit then Emit(c0, Quit).(todo := c.todo.(quit := false))
    else
      var c1 := AfterTelling(c0);
      if c1.todo.save then AfterDoSave(c1.(todo := c1.todo.(save := false)), lost) else c1
  }

  /** The main loop runs an armed source; its returning FALSE removes it. */
  function AfterFire(c: Client, id: nat, lost: bool): Client
    requires id in c.loop.sources
  {
    var c1 := match c.loop.sources[id]
              case InitialProperties => AfterInitialProperties(c)
              case PendingEvents => AfterPendingEvents(c, lost);
    c1.(loop := c1.loop.(sources := c1.loop.sources - {id}))
  }

  function Started(expecting: bool): Client {
    Client(true, Idle, Save(expecting, false, false, false, false), Todo(true, false, false, false),
           Loop(1, map[1 := InitialProperties], 2), [], [], 0)
  }

  // ----- the code

  class XsmpClient {
    var connected: bool
    var state: State
    var idle: nat
    var expectingInitial: bool
    var needSaveState: bool
    var needQuitRequested: bool
    var interactErrors: bool
    var shuttingDown: bool
    var waitingInitial: bool
    var waitingQuit: bool
    var waitingQuitCancelled: bool
    var waitingSave: bool
    var sources: map<nat, Source>
    var nextSource: nat
    var sent: seq<Message>
    var emitted: seq<Signal>
    var properties: nat

    function Model(): Client
      reads this
    {
      Client(connected, state, Save(expectingInitial, needSaveState, needQuitRequested, interactErrors, shuttingDown),
             Todo(waitingInitial, waitingQuit, waitingQuitCancelled, waitingSave),
             Loop(idle, sources, nextSource), sent, emitted, properties)
    }

    /** egg_sm_client_xsmp_init: not connected, nothing pending. */
    constructor ()
      ensures Model() == Client(false, ConnectionClosed, Save(false, false, false, false, false),
                                Todo(false, false, false, false), Loop(0, map[], 1), [], [], 0)
    {
      connected, state, idle := false, ConnectionClosed, 0;
      expectingInitial, needSaveState, needQuitRequested := false, false, false;
      interactErrors, shuttingDown := false, false;
      waitingInitial, waitingQuit, waitingQuitCancelled, waitingSave := false, false, false, false;
      sources, nextSource, sent, emitted, properties := map[], 1, [], [], 0;
    }

    method GIdleAdd(source: Source) returns (id: nat)
      modifies this`sources, this`nextSource
      ensures id == old(nextSource) && nextSource == id + 1 && sources == old(sources)[id := source]
    {
      id := nextSource;
      sources := sources[id := source];
      nextSource := nextSource + 1;
    }

    method GSourceRemove(id: nat)
      modifies this`sources
      ensures sources == old(sources) - {id}
    {
      sources := sources - {id};
    }

    /** sm_client_xsmp_startup once SmcOpenConnection has answered; `expecting` when it gave a new client id. */
    method Startup(accepted: bool, expecting: bool)
      requires Model() == Client(false, ConnectionClosed, Save(false, false, false, false, false),
                                 Todo(false, false, false, false), Loop(0, map[], 1), [], [], 0)
      modifies this
      ensures Model() == if accepted then Started(expecting) else old(Model())
    {
      connected := accepted;
      if !connected {
        state := ConnectionClosed;
        return;
      }
      if expecting {
        expectingInitial := true;
      }
      state := Idle;
      waitingInitial := true;
      idle := GIdleAdd(InitialProperties);
    }

    method UpdatePendingEvents()
      requires ValidIds(Model().loop)
      modifies this`idle, this`sources, this`nextSource
      ensures Model() == old(Model()).(loop := Update(old(Model().loop), Model().todo))
    {
      var wantIdle := waitingQuit || waitingQuitCancelled || waitingSave;
      if wantIdle {
        if idle == 0 {
          idle := GIdleAdd(PendingEvents);
        }
      } else {
        if idle != 0 {
          GSourceRemove(idle);
        } else {
          assert sources - {0} == sources;
        }
        idle := 0;
      }
    }

    /** sm_client_xsmp_set_initial_properties; the properties themselves are only counted. */
    method SetInitialProperties()
      requires ValidIds(Model().loop)
      modifies this
      ensures Model() == AfterInitialProperties(old(Model()))
    {
      if idle != 0 {
        GSourceRemove(idle);
        idle := 0;
      } else {
        assert sources - {0} == sources;
      }
      waitingInitial := false;
      properties := properties + 1;
      UpdatePendingEvents();
    }

    method Disconnect()
      requires ValidIds(Model().loop)
      modifies this
      ensures Model() == AfterDisconnect(old(Model()))
    {
      if !connected {
        return;
      }
      connected := false;
      state := ConnectionClosed;
      waitingSave := false;
      UpdatePendingEvents();
    }

    method SendMessage(m: Message)
      modifies this`sent
      ensures Model() == Send(old(Model()), m)
    {
      sent := sent + [m];
    }

    method EmitSignal(s: Signal)
      modifies this`emitted
      ensures Model() == Emit(old(Model()), s)
    {
      emitted := emitted + [s];
    }

    method SaveStateNow(lost: bool)
      requires ValidIds(Model().loop)
      modifies this
      ensures Model() == AfterSaveState(old(Model()), lost)
    {
      state := SaveYourself;
      EmitSignal(SaveState);
      if lost {
        Disconnect();
      }
    }

    method DoSaveYourself(lost: bool)
      requires ValidIds(Model().loop)
      modifies this
      ensures Model() == AfterDoSave(old(Model()), lost)
    {
      if state == ShutdownCancelled {
        waitingSave := true;
        UpdatePendingEvents();
        return;
      }
      if needQuitRequested {
        state := InteractRequest;
        SendMessage(AskInteract(interactErrors));
        return;
      }
      if needSaveState {
        SaveStateNow(lost);
        if !connected {
          return;
        }
      }
      SendMessage(SaveDone(true));
      state := SaveYourselfDone;
    }

    method FixBrokenState(sendInteractDone: bool, sendSaveYourselfDone: bool)
      requires ValidIds(Model().loop)
      modifies this
      ensures Model() == AfterBroken(old(Model()), sendInteractDone, sendSaveYourselfDone)
    {
      waitingSave := false;
      UpdatePendingEvents();
      if sendInteractDone {
        SendMessage(InteractDone(false));
      }
      if sendSaveYourselfDone {
        SendMessage(SaveDone(true));
      }
      state := if sendSaveYourselfDone then SaveYourselfDone else Idle;
    }

    /** The fields the table sets (lines 714-719). */
    method Interpret(r: Request, listening: bool)
      requires !expectingInitial
      modifies this`needSaveState, this`needQuitRequested, this`interactErrors, this`shuttingDown
      ensures Model() == old(Model()).(save := Plan(r, listening))
    {
      needSaveState := r.saveType != SaveGlobal;
      needQuitRequested := r.shutdown && listening && r.interact != InteractNone;
      interactErrors := r.interact == InteractErrors;
      shuttingDown := r.shutdown;
    }

    /** Answer the pointless initial SaveYourself, if this is it (lines 649-667). */
    method SkipInitial(r: Request) returns (skipped: bool)
      modifies this`expectingInitial, this`sent, this`state
      ensures skipped == (old(expectingInitial) && IsInitial(r))
      ensures var c := old(Model()); var quiet := c.save.(expectingInitial := false);
              Model() == if skipped then Send(c, SaveDone(true)).(state := SaveYourselfDone, save := quiet)
                         else c.(save := quiet)
    {
      skipped := false;
      if expectingInitial {
        expectingInitial := false;
        if r.saveType == SaveLocal && r.interact == InteractNone && !r.shutdown && !r.fast {
          SendMessage(SaveDone(true));
          state := SaveYourselfDone;
          skipped := true;
        }
      }
    }

    method OnSaveYourself(r: Request, listening: bool, lost: bool)
      requires ValidIds(Model().loop)
      modifies this
      ensures Model() == AfterSaveYourself(old(Model()), r, listening, lost)
    {
      hide Update, Disarm, SetTodo, AfterInitialProperties, AfterDoSave, AfterBroken, IsInitial, Plan;
      if state != Idle && state != ShutdownCancelled {
        FixBrokenState(false, true);
        return;
      }
      if waitingInitial {
        SetInitialProperties();
      }
      var skipped := SkipInitial(r);
      if skipped {
        return;
      }
      Interpret(r, listening);
      DoSaveYourself(lost);
    }

    method WillQuit(willQuit: bool)
      requires ValidIds(Model().loop)
      modifies this
      ensures Model() == AfterWillQuit(old(Model()), willQuit)
    {
      if state == ConnectionClosed {
        waitingQuit := true;
        UpdatePendingEvents();
        return;
      } else if state == ShutdownCancelled {
        waitingQuitCancelled := true;
        UpdatePendingEvents();
        return;
      }
      if state != Interact {
        return;
      }
      SendMessage(InteractDone(!willQuit));
      if willQuit && needSaveState {
        SaveStateNow(false);
      }
      SendMessage(SaveDone(willQuit));
      state := SaveYourselfDone;
    }

    /** egg_sm_client_quit_requested: answered for the application when it does not listen. */
    method QuitRequestedSignal(listening: bool)
      requires ValidIds(Model().loop)
      modifies this
      ensures Model() == if listening then Emit(old(Model()), QuitRequested) else AfterWillQuit(old(Model()), true)
    {
      if !listening {
        WillQuit(true);
        return;
      }
      EmitSignal(QuitRequested);
    }

    method OnInteract(listening: bool)
      requires ValidIds(Model().loop)
      modifies this
      ensures Model() == AfterInteract(old(Model()), listening)
    {
      if state != InteractRequest {
        FixBrokenState(true, true);
        return;
      }
      state := Interact;
      QuitRequestedSignal(listening);
    }

    method OnDie()
      requires ValidIds(Model().loop)
      modifies this
      ensures Model() == AfterDie(old(Model()))
    {
      Disconnect();
      EmitSignal(Quit);
    }

    method OnSaveComplete()
      requires ValidIds(Model().loop)
      modifies this
      ensures Model() == AfterSaveComplete(old(Model()))
    {
      if state == SaveYourselfDone {
        state := Idle;
      } else {
        FixBrokenState(false, false);
      }
    }

    method OnShutdownCancelled()
      requires ValidIds(Model().loop)
      modifies this
      ensures Model() == AfterShutdownCancelled(old(Model()))
    {
      hide Update;
      shuttingDown := false;
      if state == SaveYourselfDone {
        state := Idle;
        EmitSignal(QuitCancelled);
      } else if state == ShutdownCancelled {
        waitingSave := false;
        UpdatePendingEvents();
      } else {
        SendMessage(SaveDone(false));
        if state == Interact {
          state := ShutdownCancelled;
        } else {
          state := Idle;
        }
      }
    }

    method Tell()
      modifies this`waitingQuitCancelled, this`emitted, this`state
      ensures Model() == AfterTelling(old(Model()))
    {
      if waitingQuitCancelled {
        waitingQuitCancelled := false;
        EmitSignal(QuitCancelled);
        state := Idle;
      }
    }

    method IdleDoPendingEvents(lost: bool)
      requires ValidIds(Model().loop)
      modifies this
      ensures Model() == AfterPendingEvents(old(Model()), lost)
    {
      hide AfterDoSave, AfterTelling;
      idle := 0;
      if waitingQuit {
        waitingQuit := false;
        EmitSignal(Quit);
        return;
      }
      Tell();
      if waitingSave {
        waitingSave := false;
        DoSaveYourself(lost);
      }
    }

    /** One turn of the main loop for an armed source. */
    method Fire(id: nat, lost: bool)
      requires ValidIds(Model().loop) && id in sources
      modifies this
      ensures Model() == AfterFire(old(Model()), id, lost)
    {
      match sources[id] {
        case InitialProperties => SetInitialProperties();
        case PendingEvents => IdleDoPendingEvents(lost);
      }
      GSourceRemove(id);
    }
  }
}
