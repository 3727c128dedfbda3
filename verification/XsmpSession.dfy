/** What the X session client says, to the session manager and to the application: a session described by the messages
    exchanged, without any of the client's fields, and the proof that the client speaks for exactly this session. */
module XsmpSession {
  import opened Xsmp
  import opened XsmpRuns

  /** The diagram's phase; whether the application owes an answer; what it has to be told since its last answer; whether
      the pointless first SaveYourself is still to come; and the last SaveYourself, with whether the application
      listened for quit_requested. */
  datatype Session = Session(phase: Phase, asked: bool, untold: UntoldSignal, first: bool, request: Request,
                             listening: bool)

  datatype UntoldSignal = Nothing | TellQuit | TellCancelled

  datatype Speech = Speech(messages: seq<Message>, signals: seq<Signal>)

  const SILENCE := Speech([], [])

  /** What processing a request begins with: the question, if the session manager ends the session, allows interaction
      and the application listens; otherwise saving, unless only global state is to be saved, and the reply. */
  function Begin(r: Request, listening: bool, lost: bool): Speech {
    if r.shutdown && listening && r.interact != InteractNone
    then Speech([AskInteract(r.interact == InteractErrors)], [])
    else if r.saveType == SaveGlobal then Speech([SaveDone(true)], [])
    else Speech(if lost then [] else [SaveDone(true)], [SaveState])
  }

  /** What is said on each event that can happen. */
  function Says(s: Session, e: Event): Speech {
    match e
    case ReceiveSaveYourself(r, listening, lost) =>
      if s.phase == PDone then Speech([SaveDone(true)], [])
      else if s.first && r == Request(SaveLocal, false, InteractNone, false) then Speech([SaveDone(true)], [])
      else if s.asked || s.untold != Nothing then SILENCE
      else Begin(r, listening, lost)
    case ReceiveInteract(listening) =>
      if listening then Speech([], [QuitRequested])
      else Speech([InteractDone(false), SaveDone(true)], if s.request.saveType == SaveGlobal then [] else [SaveState])
    case ApplicationAnswers(willQuit) =>
      if s.phase != PInteracting then SILENCE
      else if !willQuit then Speech([InteractDone(true), SaveDone(false)], [])
      else Speech([InteractDone(false), SaveDone(true)], if s.request.saveType == SaveGlobal then [] else [SaveState])
    case ReceiveShutdownCancelled =>
      if s.phase == PDone then Speech([], [QuitCancelled])
      else if s.phase == PSaving then SILENCE
      else Speech([SaveDone(false)], [])
    case ReceiveDie => Speech([], [Quit])
    case MainLoopFires(_, lost) =>
      (match s.untold
       case Nothing => SILENCE
       case TellQuit => Speech([], [Quit])
       case TellCancelled =>
         var next := if s.phase == PSaving then Begin(s.request, s.listening, lost) else SILENCE;
         Speech(next.messages, [QuitCancelled] + next.signals))
    case ReceiveSaveComplete => SILENCE
    case ConnectionLost => SILENCE
  }

  /** The connection ends with the event. */
  predicate Closes(s: Session, e: Event) {
    e.ReceiveDie? || e.ConnectionLost?
    || ((e.ReceiveSaveYourself? || e.MainLoopFires?) && e.lost && SaveState in Says(s, e).signals)
  }

  function Moves(s: Session, e: Event): Session {
    Session(
      if s.phase == PClosed || Closes(s, e) then PClosed else OnSendAll(OnReceive(s.phase, e), Says(s, e).messages),
      QuitRequested in Says(s, e).signals || (s.asked && !e.ApplicationAnswers?),
      match e
      case ApplicationAnswers(_) =>
        if s.phase == PInteracting then s.untold else if s.phase == PClosed then TellQuit else TellCancelled
      case MainLoopFires(_, _) => Nothing
      case _ => s.untold,
      s.first && !e.ReceiveSaveYourself?,
      if e.ReceiveSaveYourself? then e.r else s.request,
      if e.ReceiveSaveYourself? then e.listening else s.listening)
  }

  // ----- the client speaks for the session

  ghost predicate Serves(w: World, s: Session) {
    && w.phase == s.phase && w.interacting == s.asked && w.c.save.expectingInitial == s.first
    && (w.c.todo.quit <==> s.untold == TellQuit) && (w.c.todo.quitCancelled <==> s.untold == TellCancelled)
    && (w.c.state == InteractRequest || w.c.state == Interact || w.c.todo.save ==> Remembers(w.c.save, s))
  }

  /** What the client keeps of the request. */
  ghost predicate Remembers(save: Save, s: Session) {
    && save.needState == (s.request.saveType != SaveGlobal)
    && save.needQuit == (s.request.shutdown && s.listening && s.request.interact != InteractNone)
    && save.errors == (s.request.interact == InteractErrors)
  }

  /** The client says what the session says, and stays connected exactly if the session goes on. */
  ghost predicate Echoes(w: World, s: Session, e: Event)
    requires e.MainLoopFires? ==> e.id in w.c.loop.sources
  {
    var c := Apply(w.c, e);
    && c.sent == Says(s, e).messages && c.emitted == Says(s, e).signals
    && (c.connected <==> s.phase != PClosed && !Closes(s, e))
  }

  /** The client's notes are those of the session after the event. */
  ghost predicate Notes(c: Client, s: Session, e: Event) {
    var t := Moves(s, e);
    && c.save.expectingInitial == t.first
    && (c.todo.quit <==> t.untold == TellQuit) && (c.todo.quitCancelled <==> t.untold == TellCancelled)
    && (c.state == InteractRequest || c.state == Interact || c.todo.save ==> Remembers(c.save, t))
  }

  ghost predicate Speaks(w: World, s: Session, e: Event)
    requires e.MainLoopFires? ==> e.id in w.c.loop.sources
  {
    Echoes(w, s, e) && Serves(Next(w, e), Moves(s, e))
  }

  lemma NotesServe(w: World, s: Session, e: Event)
    requires Enabled(w, e) && Serves(w, s) && Echoes(w, s, e) && Notes(Apply(w.c, e), s, e)
    ensures Speaks(w, s, e)
  {
    hide Says, Apply, OnSendAll, OnReceive, Closes, SaveDones, Remembers;
  }

  lemma StartServes(expecting: bool, r: Request, listening: bool)
    ensures Serves(Start(expecting), Session(PIdle, false, Nothing, expecting, r, listening))
  {
  }

  /** Beginning a request in the client's terms. */
  lemma BeginSays(c: Client, r: Request, listening: bool, lost: bool)
    requires c.connected && c.state == Idle && !c.todo.save
    requires c.save.needState == (r.saveType != SaveGlobal) && c.save.errors == (r.interact == InteractErrors)
    requires c.save.needQuit == (r.shutdown && listening && r.interact != InteractNone)
    ensures var d := AfterDoSave(c, lost);
            && d.sent == c.sent + Begin(r, listening, lost).messages
            && d.emitted == c.emitted + Begin(r, listening, lost).signals
            && d.connected == !(lost && SaveState in Begin(r, listening, lost).signals)
            && d.save == c.save && d.todo == c.todo
            && (d.state == Interact || d.state == InteractRequest ==> d.state == InteractRequest)
  {
  }

  /** A request that the idle client takes up at once. */
  lemma BeginsAtOnce(c: Client, r: Request, listening: bool, lost: bool)
    requires c.connected && c.state == Idle && !c.todo.save && !(c.save.expectingInitial && IsInitial(r))
    requires c.sent == [] && c.emitted == []
    ensures var d := AfterSaveYourself(c, r, listening, lost);
            var begun := Begin(r, listening, lost);
            && d.sent == begun.messages && d.emitted == begun.signals
            && d.connected == !(lost && SaveState in begun.signals)
            && d.save == Plan(r, listening) && d.todo == c.todo.(initial := false)
  {
    var c1 := if c.todo.initial then AfterInitialProperties(c) else c;
    BeginSays(c1.(save := Plan(r, listening)), r, listening, lost);
    hide AfterDoSave, Begin;
    var begun := Begin(r, listening, lost);
    assert [] + begun.messages == begun.messages && [] + begun.signals == begun.signals;
  }

  lemma SaveYourselfSpeaks(w: World, s: Session, e: Event)
    requires Inv(w) && Enabled(w, e) && Serves(w, s) && e.ReceiveSaveYourself?
    requires w.c.state == Idle && !(w.c.save.expectingInitial && IsInitial(e.r))
    ensures Echoes(w, s, e) && Notes(Apply(w.c, e), s, e)
  {
    BeginsAtOnce(w.c, e.r, e.listening, e.lost);
    hide AfterSaveYourself, Begin;
  }

  lemma SaveYourselfAnswered(w: World, s: Session, e: Event)
    requires Inv(w) && Enabled(w, e) && Serves(w, s) && e.ReceiveSaveYourself?
    requires w.c.state == SaveYourselfDone || w.c.state == ShutdownCancelled
             || (w.c.state == Idle && w.c.save.expectingInitial && IsInitial(e.r))
    ensures Echoes(w, s, e) && Notes(Apply(w.c, e), s, e)
  {
  }

  lemma InteractSpeaks(w: World, s: Session, e: Event)
    requires Inv(w) && Enabled(w, e) && Serves(w, s) && e.ReceiveInteract?
    ensures Echoes(w, s, e) && Notes(Apply(w.c, e), s, e)
  {
  }

  lemma AnswerSpeaks(w: World, s: Session, e: Event)
    requires Inv(w) && Enabled(w, e) && Serves(w, s) && e.ApplicationAnswers?
    ensures Echoes(w, s, e) && Notes(Apply(w.c, e), s, e)
  {
  }

  lemma ServerSpeaks(w: World, s: Session, e: Event)
    requires Inv(w) && Enabled(w, e) && Serves(w, s)
    requires e.ReceiveDie? || e.ReceiveSaveComplete? || e.ConnectionLost? || e.ReceiveShutdownCancelled?
    ensures Echoes(w, s, e) && Notes(Apply(w.c, e), s, e)
  {
  }

  /** A turn of the main loop on a client with a deferred save. */
  lemma BeginsDeferred(c: Client, s: Session, lost: bool)
    requires c.connected && c.todo.save && c.todo.quitCancelled && !c.todo.quit && Remembers(c.save, s)
    requires c.sent == [] && c.emitted == []
    ensures var d := AfterPendingEvents(c, lost);
            var begun := Begin(s.request, s.listening, lost);
            && d.sent == begun.messages && d.emitted == [QuitCancelled] + begun.signals
            && d.connected == !(lost && SaveState in begun.signals)
            && d.save == c.save && d.todo == c.todo.(quitCancelled := false, save := false) && d.state != Interact
  {
    var c1 := Emit(c.(loop := c.loop.(idle := 0)), QuitCancelled);
    BeginSays(c1.(todo := c.todo.(quitCancelled := false, save := false), state := Idle),
              s.request, s.listening, lost);
    hide AfterDoSave, Begin;
    var begun := Begin(s.request, s.listening, lost);
    assert [] + begun.messages == begun.messages;
  }

  /** And on any other: a save that is deferred while the application interacts is deferred again. */
  lemma TellsOnly(c: Client, lost: bool)
    requires c.todo.save ==> c.state == ShutdownCancelled && !c.todo.quitCancelled && !c.todo.quit
    requires c.sent == [] && c.emitted == []
    ensures var d := AfterPendingEvents(c, lost);
            && d.sent == [] && d.connected == c.connected && d.save == c.save
            && d.emitted == (if c.todo.quit then [Quit] else if c.todo.quitCancelled then [QuitCancelled] else [])
            && d.todo == (if c.todo.quit then c.todo.(quit := false) else c.todo.(quitCancelled := false))
            && (d.state == c.state || d.state == Idle)
  {
  }

  lemma InitialSaysNothing(w: World, s: Session, e: Event)
    requires Inv(w) && Enabled(w, e) && Serves(w, s) && e.MainLoopFires?
    requires w.c.loop.sources[e.id] == InitialProperties
    ensures Echoes(w, s, e) && Notes(Apply(w.c, e), s, e)
  {
    hide AfterPendingEvents, Begin;
  }

  lemma TellOnly(w: World, s: Session, e: Event)
    requires Inv(w) && Enabled(w, e) && Serves(w, s) && e.MainLoopFires?
    requires w.c.loop.sources[e.id] == PendingEvents && !(w.c.todo.save && w.c.todo.quitCancelled)
    ensures Echoes(w, s, e) && Notes(Apply(w.c, e), s, e)
  {
    TellsOnly(w.c, e.lost);
    SaysBegun([]);
    hide AfterPendingEvents, Begin;
    assert [QuitCancelled] + [] == [QuitCancelled];
  }

  lemma TellAndBegin(w: World, s: Session, e: Event)
    requires Inv(w) && Enabled(w, e) && Serves(w, s) && e.MainLoopFires?
    requires w.c.todo.save && w.c.todo.quitCancelled
    ensures Echoes(w, s, e) && Notes(Apply(w.c, e), s, e)
  {
    BeginsDeferred(w.c, s, e.lost);
    SaysBegun(Begin(s.request, s.listening, e.lost).signals);
    hide AfterPendingEvents, Begin;
  }

  lemma SaysBegun(signals: seq<Signal>)
    ensures SaveState in [QuitCancelled] + signals <==> SaveState in signals
  {
  }

  lemma SaveYourselfCases(w: World, s: Session, e: Event)
    requires Inv(w) && Enabled(w, e) && Serves(w, s) && e.ReceiveSaveYourself?
    ensures Echoes(w, s, e) && Notes(Apply(w.c, e), s, e)
  {
    SaveYourselfStates(w, e);
    hide Inv, Enabled, Serves, Echoes, Notes, Apply;
    if w.c.state == Idle && !(w.c.save.expectingInitial && IsInitial(e.r)) {
      SaveYourselfSpeaks(w, s, e);
    } else {
      SaveYourselfAnswered(w, s, e);
    }
  }

  lemma FireCases(w: World, s: Session, e: Event)
    requires Inv(w) && Enabled(w, e) && Serves(w, s) && e.MainLoopFires?
    ensures Echoes(w, s, e) && Notes(Apply(w.c, e), s, e)
  {
    hide Inv, Serves, Echoes, Notes, Apply;
    if w.c.loop.sources[e.id] == InitialProperties {
      InitialSaysNothing(w, s, e);
    } else if w.c.todo.save && w.c.todo.quitCancelled {
      TellAndBegin(w, s, e);
    } else {
      TellOnly(w, s, e);
    }
  }

  /** In every step of a run the client says exactly what the session says, and serves the session after it. */
  lemma StepSpeaks(w: World, s: Session, e: Event)
    requires Inv(w) && Enabled(w, e) && Serves(w, s)
    ensures Speaks(w, s, e)
  {
    hide Inv, Serves, Echoes, Notes, Speaks, Apply;
    match e {
      case ReceiveSaveYourself(_, _, _) => SaveYourselfCases(w, s, e);
      case ReceiveInteract(_) => InteractSpeaks(w, s, e);
      case ApplicationAnswers(_) => AnswerSpeaks(w, s, e);
      case MainLoopFires(_, _) => FireCases(w, s, e);
      case _ => ServerSpeaks(w, s, e);
    }
    NotesServe(w, s, e);
  }

  // ----- whole runs

  /** The session after the first n events of a run. */
  function SessionAfter(s: Session, events: seq<Event>, n: nat): Session
    requires n <= |events|
  {
    if n == 0 then s else Moves(SessionAfter(s, events, n - 1), events[n - 1])
  }

  function Opening(expecting: bool): Session {
    Session(PIdle, false, Nothing, expecting, Request(SaveLocal, false, InteractNone, false), false)
  }

  lemma {:induction false} RunServes(worlds: seq<World>, events: seq<Event>, expecting: bool, i: nat)
    requires Run(worlds, events) && worlds[0] == Start(expecting) && i <= |events|
    ensures Serves(worlds[i], SessionAfter(Opening(expecting), events, i))
  {
    hide Enabled, Next, Start, Inv, Serves, Echoes, Moves, Says;
    if i == 0 {
      StartServes(expecting, Opening(expecting).request, Opening(expecting).listening);
    } else {
      RunServes(worlds, events, expecting, i - 1);
      RunKeepsInv(worlds, events, i - 1);
      var e := events[i - 1];
      StepSpeaks(worlds[i - 1], SessionAfter(Opening(expecting), events, i - 1), e);
    }
  }

  /** In every run, from the events alone: what each step sends and emits. */
  lemma RunSpeaks(worlds: seq<World>, events: seq<Event>, expecting: bool, i: nat)
    requires Run(worlds, events) && worlds[0] == Start(expecting) && i < |events|
    ensures var s := SessionAfter(Opening(expecting), events, i);
            && Apply(worlds[i].c, events[i]).sent == Says(s, events[i]).messages
            && Apply(worlds[i].c, events[i]).emitted == Says(s, events[i]).signals
  {
    hide Start, Inv, Serves, Moves, Says, Apply;
    RunServes(worlds, events, expecting, i);
    RunKeepsInv(worlds, events, i);
    StepSpeaks(worlds[i], SessionAfter(Opening(expecting), events, i), events[i]);
  }

  // ----- what this means, message by message

  lemma StepSays(w: World, s: Session, e: Event)
    requires Inv(w) && Enabled(w, e) && Serves(w, s)
    ensures e.MainLoopFires? ==> e.id in w.c.loop.sources
    ensures Apply(w.c, e).sent == Says(s, e).messages && Apply(w.c, e).emitted == Says(s, e).signals
    ensures w.phase == s.phase && w.interacting == s.asked
    ensures w.c.state == Interact <==> s.phase == PInteracting
  {
    hide Says, Moves, Apply;
    StepSpeaks(w, s, e);
  }

  /** The session manager hears of a refusal, and of nothing else, as a cancelled interaction. */
  lemma RefusalCancels(w: World, s: Session, e: Event)
    requires Inv(w) && Enabled(w, e) && Serves(w, s)
    ensures InteractDone(true) in Apply(w.c, e).sent <==> e == ApplicationAnswers(false) && w.c.state == Interact
  {
    StepSays(w, s, e);
    hide Apply, Inv, Serves, Moves;
  }

  /** A reply says no exactly on a refusal, or when the shutdown is cancelled while the session manager waits for the
      client's interaction. */
  lemma RefusedReply(w: World, s: Session, e: Event)
    requires Inv(w) && Enabled(w, e) && Serves(w, s)
    ensures SaveDone(false) in Apply(w.c, e).sent
       <==> (e == ApplicationAnswers(false) && w.c.state == Interact)
            || (e == ReceiveShutdownCancelled && (w.phase == PInteractRequested || w.phase == PInteracting))
  {
    StepSays(w, s, e);
    hide Apply, Inv, Serves, Moves;
  }

  /** So in every step of every run. */
  lemma RefusalsInRuns(worlds: seq<World>, events: seq<Event>, i: nat)
    requires Run(worlds, events) && i < |events|
    ensures var w, e := worlds[i], events[i];
            && (InteractDone(true) in Apply(w.c, e).sent <==> e == ApplicationAnswers(false) && w.c.state == Interact)
            && (SaveDone(false) in Apply(w.c, e).sent
                <==> || (e == ApplicationAnswers(false) && w.c.state == Interact)
                     || (e == ReceiveShutdownCancelled && (w.phase == PInteractRequested || w.phase == PInteracting)))
  {
    hide Start, Inv, Serves, Moves, Apply, Next;
    var expecting :| worlds[0] == Start(expecting);
    RunServes(worlds, events, expecting, i);
    RunKeepsInv(worlds, events, i);
    var s := SessionAfter(Opening(expecting), events, i);
    RefusalCancels(worlds[i], s, events[i]);
    RefusedReply(worlds[i], s, events[i]);
  }

  /** The application is asked, through the session manager, exactly for a request to end the session that allows
      interaction, when it listens: at once, or after it has been told of an earlier cancellation. */
  lemma AsksFor(w: World, s: Session, e: Event, errors: bool)
    requires Inv(w) && Enabled(w, e) && Serves(w, s)
    ensures AskInteract(errors) in Apply(w.c, e).sent
       <==> var r, listening := if e.ReceiveSaveYourself? then e.r else s.request,
                                if e.ReceiveSaveYourself? then e.listening else s.listening;
            && (Starts(w, s, e) || Resumes(w, s, e))
            && r.shutdown && listening && r.interact != InteractNone && errors == (r.interact == InteractErrors)
  {
    StepSays(w, s, e);
    hide Apply, Inv, Serves, Moves;
  }

  /** A SaveYourself that is taken up at once: not the pointless first one, not behind a reply, and nothing open. */
  predicate Starts(w: World, s: Session, e: Event) {
    e.ReceiveSaveYourself? && w.phase != PDone && !s.asked && s.untold == Nothing
    && !(s.first && e.r.saveType == SaveLocal && !e.r.shutdown && e.r.interact == InteractNone && !e.r.fast)
  }

  /** One that was deferred, once the application has been told of the cancellation. */
  predicate Resumes(w: World, s: Session, e: Event) {
    e.MainLoopFires? && s.untold == TellCancelled && w.phase == PSaving
  }

  /** The application saves exactly for a request with local state: at once or resumed, when it need not be asked; or
      when it agrees, or is not listening. */
  lemma SavesFor(w: World, s: Session, e: Event)
    requires Inv(w) && Enabled(w, e) && Serves(w, s)
    ensures SaveState in Apply(w.c, e).emitted
       <==> var r, listening := if e.ReceiveSaveYourself? then e.r else s.request,
                                if e.ReceiveSaveYourself? then e.listening else s.listening;
            && r.saveType != SaveGlobal
            && (|| ((Starts(w, s, e) || Resumes(w, s, e))
                    && !(r.shutdown && listening && r.interact != InteractNone))
                || (e == ApplicationAnswers(true) && w.c.state == Interact)
                || e == ReceiveInteract(false))
  {
    StepSays(w, s, e);
    hide Apply, Inv, Serves, Moves;
  }

  /** quit is emitted exactly when the session manager says Die, or in the turn after the application has answered on a
      closed connection; quit_cancelled exactly when a shutdown is cancelled after the reply, or in the turn after the
      application has answered one that was cancelled before. */
  lemma QuitsFor(w: World, s: Session, e: Event)
    requires Inv(w) && Enabled(w, e) && Serves(w, s)
    ensures Quit in Apply(w.c, e).emitted <==> e.ReceiveDie? || (e.MainLoopFires? && s.untold == TellQuit)
    ensures QuitCancelled in Apply(w.c, e).emitted
       <==> (e.ReceiveShutdownCancelled? && w.phase == PDone) || (e.MainLoopFires? && s.untold == TellCancelled)
    ensures QuitRequested in Apply(w.c, e).emitted <==> e == ReceiveInteract(true)
  {
    StepSays(w, s, e);
    SignalsSaid(s, e);
    hide *;
  }

  lemma SignalsSaid(s: Session, e: Event)
    ensures Quit in Says(s, e).signals <==> e.ReceiveDie? || (e.MainLoopFires? && s.untold == TellQuit)
    ensures QuitCancelled in Says(s, e).signals
       <==> (e.ReceiveShutdownCancelled? && s.phase == PDone) || (e.MainLoopFires? && s.untold == TellCancelled)
    ensures QuitRequested in Says(s, e).signals <==> e == ReceiveInteract(true)
  {
    hide Begin;
    if e.ReceiveSaveYourself? {
      BeginSaves(e.r, e.listening, e.lost);
    } else if e.MainLoopFires? {
      BeginSaves(s.request, s.listening, e.lost);
    }
  }

  lemma BeginSaves(r: Request, listening: bool, lost: bool)
    ensures Begin(r, listening, lost).signals == [] || Begin(r, listening, lost).signals == [SaveState]
  {
  }

  /** Every answer is followed up: passed on at once, or kept to be told later. */
  lemma AnswersAreFollowedUp(w: World, s: Session, willQuit: bool)
    requires Inv(w) && Enabled(w, ApplicationAnswers(willQuit)) && Serves(w, s)
    ensures var c := Apply(w.c, ApplicationAnswers(willQuit));
            if w.phase == PInteracting then c.sent == [InteractDone(!willQuit), SaveDone(willQuit)]
            else if w.phase == PClosed then c.todo.quit && c.loop.idle in c.loop.sources
            else c.todo.quitCancelled && c.loop.idle in c.loop.sources
  {
    var e := ApplicationAnswers(willQuit);
    StepSpeaks(w, s, e);
    StepKeepsInv(w, e);
    hide Apply, Inv;
    NextInv(w, e);
  }

  lemma NextInv(w: World, e: Event)
    requires Inv(w) && Enabled(w, e) && Inv(Next(w, e))
    ensures NoLostWakeUp(Next(w, e).c)
    ensures Next(w, e).c.loop == Apply(w.c, e).loop && Next(w, e).c.todo == Apply(w.c, e).todo
  {
    hide Apply;
  }

  // ----- counted over whole runs

  /** How often the application has refused while the session manager was waiting. */
  ghost function Refusals(worlds: seq<World>, events: seq<Event>, n: nat): nat
    requires Run(worlds, events) && n <= |events|
  {
    if n == 0 then 0
    else Refusals(worlds, events, n - 1)
         + if events[n - 1] == ApplicationAnswers(false) && worlds[n - 1].phase == PInteracting then 1 else 0
  }

  function Cancellations(messages: seq<Message>): nat {
    if messages == [] then 0
    else Cancellations(messages[..|messages| - 1]) + if messages[|messages| - 1] == InteractDone(true) then 1 else 0
  }

  lemma {:induction false} CancellationsBoth(a: seq<Message>, b: seq<Message>)
    ensures Cancellations(a + b) == Cancellations(a) + Cancellations(b)
  {
    if b == [] {
      assert a + b == a;
    } else {
      assert (a + b)[..|a + b| - 1] == a + b[..|b| - 1];
      CancellationsBoth(a, b[..|b| - 1]);
    }
  }

  lemma StepCancellations(s: Session, e: Event)
    ensures Cancellations(Says(s, e).messages)
         == if e == ApplicationAnswers(false) && s.phase == PInteracting then 1 else 0
  {
    var m := Says(s, e).messages;
    if |m| == 1 {
      assert m[..0] == [];
    } else if |m| == 2 {
      assert m[..1] == [m[0]] && m[..1][..0] == [];
    }
  }

  /** In every run the session manager has been told to cancel exactly as often as the application has refused. */
  lemma {:induction false} EveryRefusalCancels(worlds: seq<World>, events: seq<Event>, n: nat)
    requires Run(worlds, events) && n <= |events|
    ensures Cancellations(SentBy(worlds, events, n)) == Refusals(worlds, events, n)
  {
    hide Enabled, Next, Start, Inv, Serves, Moves, Says, Apply, Cancellations;
    if n == 0 {
      assert Cancellations([]) == 0 by { NoCancellations(); }
    } else {
      EveryRefusalCancels(worlds, events, n - 1);
      var expecting :| worlds[0] == Start(expecting);
      var s := SessionAfter(Opening(expecting), events, n - 1);
      EnabledFires(worlds[n - 1], events[n - 1]);
      RunSpeaks(worlds, events, expecting, n - 1);
      RunServes(worlds, events, expecting, n - 1);
      ServesPhase(worlds[n - 1], s);
      StepCancellations(s, events[n - 1]);
      CancellationsBoth(SentBy(worlds, events, n - 1), Apply(worlds[n - 1].c, events[n - 1]).sent);
    }
  }

  lemma NoCancellations()
    ensures Cancellations([]) == 0
  {
  }

  lemma EnabledFires(w: World, e: Event)
    requires Enabled(w, e)
    ensures e.MainLoopFires? ==> e.id in w.c.loop.sources
  {
  }

  lemma ServesPhase(w: World, s: Session)
    requires Serves(w, s)
    ensures w.phase == s.phase
  {
  }

  // ----- the initial properties

  ghost predicate PropertiesOnce(w: World) {
    w.c.properties == (if w.c.todo.initial then 0 else 1) && (w.received > 0 ==> !w.c.todo.initial)
  }

  lemma SaveYourselfProperties(w: World, e: Event)
    requires Inv(w) && Enabled(w, e) && PropertiesOnce(w) && e.ReceiveSaveYourself?
    ensures PropertiesOnce(Next(w, e))
  {
    hide OnSendAll, SaveDones, OnReceive;
  }

  lemma OtherProperties(w: World, e: Event)
    requires Inv(w) && Enabled(w, e) && PropertiesOnce(w) && !e.ReceiveSaveYourself?
    ensures PropertiesOnce(Next(w, e))
  {
    hide OnSendAll, SaveDones, OnReceive;
  }

  lemma StepProperties(w: World, e: Event)
    requires Inv(w) && Enabled(w, e) && PropertiesOnce(w)
    ensures PropertiesOnce(Next(w, e))
  {
    hide *;
    if e.ReceiveSaveYourself? {
      SaveYourselfProperties(w, e);
    } else {
      OtherProperties(w, e);
    }
  }

  /** In every run the initial properties are set at most once, and before the first SaveYourself is answered. */
  lemma {:induction false} InitialPropertiesOnce(worlds: seq<World>, events: seq<Event>, i: nat)
    requires Run(worlds, events) && i < |worlds|
    ensures PropertiesOnce(worlds[i])
  {
    hide Enabled, Next, Inv, PropertiesOnce, Start;
    if i == 0 {
      var expecting :| worlds[0] == Start(expecting);
      StartProperties(expecting);
    } else {
      InitialPropertiesOnce(worlds, events, i - 1);
      RunKeepsInv(worlds, events, i - 1);
      var e := events[i - 1];
      StepProperties(worlds[i - 1], e);
    }
  }

  lemma StartProperties(expecting: bool)
    ensures PropertiesOnce(Start(expecting))
  {
  }

  // ----- a loop that never rests

  /** While the application interacts, a deferred save keeps the main loop busy: each turn arms the next. */
  lemma DeferralSpins(w: World, lost: bool)
    requires Inv(w) && w.c.todo.save && w.interacting
    ensures w.c.loop.idle in w.c.loop.sources
    ensures var e := MainLoopFires(w.c.loop.idle, lost);
            var v := Next(w, e);
            && Enabled(w, e) && v.c == w.c.(loop := v.c.loop) && v.interacting
            && v.c.loop.idle in v.c.loop.sources && v.c.loop.sources[v.c.loop.idle] == PendingEvents
  {
    hide OnSendAll, SaveDones, OnReceive;
  }
}
