/** The X session client against a session manager that sends any message at any time: exactly which messages make
    the client ask the application again before it has answered. */
module XsmpStray {
  import opened Xsmp
  import opened XsmpRuns

  // ----- any session manager

  /** While connected any message may come; the application answers only when asked. */
  ghost predicate Possible(w: World, e: Event) {
    match e
    case ApplicationAnswers(_) => w.interacting
    case MainLoopFires(id, _) => id in w.c.loop.sources
    case _ => w.c.connected
  }

  /** A run from start-up with any session manager. */
  ghost predicate AnyRun(worlds: seq<World>, events: seq<Event>) {
    && |worlds| == |events| + 1
    && (exists expecting :: worlds[0] == Start(expecting))
    && forall i {:trigger events[i]} :: 0 <= i < |events| ==>
         Possible(worlds[i], events[i]) && worlds[i + 1] == Next(worlds[i], events[i])
  }

  /** The guards of fix_broken_state: the client takes the message for an error. */
  predicate Repairs(c: Client, e: Event) {
    || (e.ReceiveInteract? && c.state != InteractRequest)
    || (e.ReceiveSaveComplete? && c.state != SaveYourselfDone)
    || (e.ReceiveSaveYourself? && c.state != Idle && c.state != ShutdownCancelled)
  }

  /** It does so while a question is open: the application has not answered, or still has to be told that the
      shutdown is cancelled. */
  predicate Harmful(w: World, e: Event) {
    Repairs(w.c, e) && (w.interacting || w.c.todo.quitCancelled)
  }

  // ----- what such messages are answered with

  /** Where it sees an error the client only sends the replies the other side may be waiting for, refuses no shutdown,
      tells the application nothing, and gives up the deferred save; whatever else is pending stays. */
  lemma RepairSends(c: Client, e: Event)
    requires Repairs(c, e)
    ensures var after := Apply(c, e);
            && after.sent == c.sent + (if e.ReceiveInteract? then [InteractDone(false), SaveDone(true)]
                                       else if e.ReceiveSaveYourself? then [SaveDone(true)] else [])
            && after.state == (if e.ReceiveSaveComplete? then Idle else SaveYourselfDone)
            && after.emitted == c.emitted && after.save == c.save && after.properties == c.properties
            && after.todo == c.todo.(save := false) && after.connected == c.connected
  {
    if e.ReceiveInteract? {
      assert c.sent + [InteractDone(false)] + [SaveDone(true)] == c.sent + [InteractDone(false), SaveDone(true)];
    }
  }

  /** A cancellation, in any state: the save that was reported done is over and the application hears of it; a
      deferred save is dropped without a reply; and otherwise the session manager gets its reply at once, while an
      application that has been asked keeps the question. */
  lemma CancellationSends(c: Client)
    ensures var after := Apply(c, ReceiveShutdownCancelled);
            && after.sent == c.sent + (if c.state == SaveYourselfDone || c.state == ShutdownCancelled then []
                                       else [SaveDone(false)])
            && after.emitted == c.emitted + (if c.state == SaveYourselfDone then [QuitCancelled] else [])
            && after.state == (if c.state == Interact || c.state == ShutdownCancelled then ShutdownCancelled else Idle)
            && after.todo == (if c.state == ShutdownCancelled then c.todo.(save := false) else c.todo)
            && after.save == c.save.(shuttingDown := false) && after.connected == c.connected
  {
    assert c.sent + [] == c.sent && c.emitted + [] == c.emitted;
  }

  // ----- what every rest point satisfies

  ghost predicate WakeUpArmed(c: Client) {
    var armed := c.loop.idle in c.loop.sources;
    (c.todo.save ==> c.state == ShutdownCancelled && c.connected)
    && (c.todo.save || c.todo.quit || c.todo.quitCancelled ==> armed)
    && (armed ==> (c.loop.sources[c.loop.idle] == InitialProperties <==> c.todo.initial))
  }

  ghost predicate NotAskedYet(w: World) {
    w.c.todo.initial || w.c.save.expectingInitial ==>
      && !w.interacting && !w.c.todo.save && !w.c.todo.quit && !w.c.todo.quitCancelled
      && w.c.state != InteractRequest && w.c.state != Interact && w.c.state != ShutdownCancelled
  }

  /** The client knows of every open question. */
  ghost predicate Tracks(w: World) {
    && w.c.sent == [] && w.c.emitted == []
    && OneSource(w.c.loop) && WakeUpArmed(w.c) && AskedOnce(w) && NotAskedYet(w)
    && (if w.c.connected then w.c.state != SaveYourself && w.c.state != ConnectionClosed
        else w.c.state == ConnectionClosed || w.c.state == Idle)
  }

  lemma StartTracks(expecting: bool)
    ensures Tracks(Start(expecting))
  {
  }

  lemma SaveYourselfTracks(w: World, e: Event)
    requires Tracks(w) && Possible(w, e) && !Harmful(w, e) && e.ReceiveSaveYourself?
    ensures Tracks(Next(w, e))
  {
    hide OnSendAll, SaveDones, OnReceive;
    var c1 := if w.c.todo.initial then AfterInitialProperties(w.c) else w.c;
    if w.c.state == Idle {
      DoSaveOutcome(c1.(save := Plan(e.r, e.listening)), e.lost);
      hide AfterDoSave, Plan, IsInitial;
    }
  }

  lemma InteractTracks(w: World, e: Event)
    requires Tracks(w) && Possible(w, e) && !Harmful(w, e) && e.ReceiveInteract?
    ensures Tracks(Next(w, e))
  {
    hide OnSendAll, SaveDones, OnReceive;
  }

  lemma ServerTracks(w: World, e: Event)
    requires Tracks(w) && Possible(w, e) && !Harmful(w, e)
    requires e.ReceiveDie? || e.ReceiveSaveComplete? || e.ConnectionLost?
    ensures Tracks(Next(w, e))
  {
    hide OnSendAll, SaveDones, OnReceive;
  }

  lemma ShutdownCancelledTracks(w: World, e: Event)
    requires Tracks(w) && Possible(w, e) && e.ReceiveShutdownCancelled?
    ensures Tracks(Next(w, e))
  {
    hide OnSendAll, SaveDones, OnReceive;
  }

  lemma AnswerTracks(w: World, e: Event)
    requires Tracks(w) && Possible(w, e) && e.ApplicationAnswers?
    ensures Tracks(Next(w, e))
  {
    hide OnSendAll, SaveDones, OnReceive;
  }

  lemma FireTracks(w: World, e: Event)
    requires Tracks(w) && Possible(w, e) && e.MainLoopFires?
    ensures Tracks(Next(w, e))
  {
    hide OnSendAll, SaveDones, OnReceive;
    if w.c.todo.save && w.c.todo.quitCancelled {
      var c1 := Emit(w.c.(loop := w.c.loop.(idle := 0)), QuitCancelled);
      DoSaveOutcome(c1.(todo := w.c.todo.(quitCancelled := false, save := false), state := Idle), e.lost);
    }
  }

  lemma StepTracks(w: World, e: Event)
    requires Tracks(w) && Possible(w, e) && !Harmful(w, e)
    ensures Tracks(Next(w, e))
  {
    hide *;
    match e
    case ReceiveSaveYourself(_, _, _) => SaveYourselfTracks(w, e);
    case ReceiveInteract(_) => InteractTracks(w, e);
    case ApplicationAnswers(_) => AnswerTracks(w, e);
    case MainLoopFires(_, _) => FireTracks(w, e);
    case ReceiveShutdownCancelled => ShutdownCancelledTracks(w, e);
    case _ => ServerTracks(w, e);
  }

  lemma HarmfulLosesTrack(w: World, e: Event)
    requires Tracks(w) && Possible(w, e) && Harmful(w, e)
    ensures !AskedOnce(Next(w, e))
  {
    hide OnSendAll, SaveDones, OnReceive;
  }

  /** Whatever can happen next, the client keeps track of its question exactly unless it repairs its state while
      one is open. */
  lemma KeepsTrackExactly(w: World, e: Event)
    requires Tracks(w) && Possible(w, e)
    ensures Tracks(Next(w, e)) <==> !Harmful(w, e)
  {
    if Harmful(w, e) {
      HarmfulLosesTrack(w, e);
    } else {
      StepTracks(w, e);
    }
    hide Next, AskedOnce, Harmful;
  }

  lemma AsksOnlyWhenFree(w: World, e: Event)
    requires Tracks(w) && Possible(w, e) && QuitRequested in Apply(w.c, e).emitted
    ensures !w.interacting
  {
  }

  // ----- whole runs

  /** None of the first n steps is harmful. */
  ghost predicate NoneHarmful(worlds: seq<World>, events: seq<Event>, n: nat)
    requires n <= |worlds| && n <= |events|
  {
    forall k {:trigger Harmful(worlds[k], events[k])} :: 0 <= k < n ==> !Harmful(worlds[k], events[k])
  }

  lemma {:induction false} RunTracks(worlds: seq<World>, events: seq<Event>, i: nat)
    requires AnyRun(worlds, events) && i < |worlds|
    requires NoneHarmful(worlds, events, i)
    ensures Tracks(worlds[i])
  {
    hide Possible, Next, Start, Tracks, Harmful;
    if i == 0 {
      var expecting :| worlds[0] == Start(expecting);
      StartTracks(expecting);
    } else {
      RunTracks(worlds, events, i - 1);
      assert !Harmful(worlds[i - 1], events[i - 1]);
      StepTracks(worlds[i - 1], events[i - 1]);
    }
  }

  /** With any session manager, as long as no message has been harmful, the application is never asked again while
      it still owes an answer. */
  lemma NeverAskedTwice(worlds: seq<World>, events: seq<Event>, i: nat)
    requires AnyRun(worlds, events) && i < |events|
    requires NoneHarmful(worlds, events, i)
    ensures QuitRequested in Apply(worlds[i].c, events[i]).emitted ==> !worlds[i].interacting
  {
    hide Start, Apply, Tracks, Harmful;
    RunTracks(worlds, events, i);
    if QuitRequested in Apply(worlds[i].c, events[i]).emitted {
      AsksOnlyWhenFree(worlds[i], events[i]);
    }
  }

  /** A session manager that follows the diagram sends nothing harmful. */
  lemma DiagramIsHarmless(w: World, e: Event)
    requires Inv(w) && Enabled(w, e)
    ensures Tracks(w) && Possible(w, e) && !Harmful(w, e)
  {
  }

  // ----- from every harmful step the application can be asked again

  /** From here on the events follow the diagram, and with the last of them the client asks an application that has
      not answered. */
  ghost predicate AsksAgain(w: World, events: seq<Event>)
    decreases |events|
  {
    events != [] && Enabled(w, events[0])
    && (if |events| == 1 then w.interacting && QuitRequested in Apply(w.c, events[0]).emitted
        else AsksAgain(Next(w, events[0]), events[1..]))
  }

  lemma AsksAgainAfter(w: World, e: Event, rest: seq<Event>)
    requires Enabled(w, e) && rest != [] && AsksAgain(Next(w, e), rest)
    ensures AsksAgain(w, [e] + rest)
  {
    assert ([e] + rest)[1..] == rest;
  }

  /** Idle, for the client and for the diagram. */
  ghost predicate Free(w: World) {
    && w.c.connected && w.c.state == Idle && (w.phase == PIdle || w.phase == POverdue)
    && !w.c.save.expectingInitial && !w.c.todo.initial && !w.c.todo.save && !w.c.todo.quit
    && w.c.sent == [] && w.c.emitted == []
  }

  /** A logout, and then the session manager's leave to interact. */
  function Logout(r: Request): Event {
    ReceiveSaveYourself(r, true, false)
  }

  const LEAVE := ReceiveInteract(true)

  lemma LogoutFromIdle(w: World, r: Request)
    requires Free(w) && IsLogout(r)
    ensures Enabled(w, Logout(r))
    ensures var v := Next(w, Logout(r));
            && v.c == w.c.(state := InteractRequest, save := Plan(r, true))
            && v.phase == PInteractRequested && v.interacting == w.interacting
  {
    ShortSends(PSaving, Apply(w.c, Logout(r)).sent);
  }

  lemma LeaveAsks(w: World)
    requires w.c.connected && w.c.state == InteractRequest && w.phase == PInteractRequested
    requires w.c.sent == [] && w.c.emitted == []
    ensures Enabled(w, LEAVE) && QuitRequested in Apply(w.c, LEAVE).emitted
    ensures var v := Next(w, LEAVE);
            v.c == w.c.(state := Interact) && v.phase == PInteracting && v.interacting
  {
    ShortSends(PInteracting, Apply(w.c, LEAVE).sent);
  }

  /** An application that has not answered is asked again by the next logout. */
  lemma AskedAgainFromIdle(w: World, r: Request)
    requires Free(w) && IsLogout(r) && w.interacting
    ensures AsksAgain(w, [Logout(r), LEAVE])
  {
    LogoutFromIdle(w, r);
    LeaveAsks(Next(w, Logout(r)));
    hide Enabled, Next, Apply;
    assert [LEAVE][1..] == [] && [Logout(r)] + [LEAVE] == [Logout(r), LEAVE];
    AsksAgainAfter(w, Logout(r), [LEAVE]);
  }

  /** The main loop, telling of the earlier cancellation, makes the client idle in the middle of a new question. */
  lemma TellingForgets(w: World)
    requires w.c.connected && w.c.state == Interact && w.phase == PInteracting && w.interacting
    requires w.c.sent == [] && w.c.emitted == [] && OneSource(w.c.loop)
    requires w.c.todo == Todo(false, false, true, false) && !w.c.save.expectingInitial
    requires w.c.loop.idle in w.c.loop.sources && w.c.loop.sources[w.c.loop.idle] == PendingEvents
    ensures var fire := MainLoopFires(w.c.loop.idle, false);
            var v := Next(w, fire);
            && Enabled(w, fire) && Enabled(v, ReceiveShutdownCancelled)
            && Free(Next(v, ReceiveShutdownCancelled)) && Next(v, ReceiveShutdownCancelled).interacting
  {
    var fire := MainLoopFires(w.c.loop.idle, false);
    var v := Next(w, fire);
    ShortSends(PInteracting, Apply(w.c, fire).sent);
    ShortSends(POverdue, Apply(v.c, ReceiveShutdownCancelled).sent);
  }

  lemma AskedAgainFromPending(w: World, r: Request) returns (events: seq<Event>)
    requires Free(w) && IsLogout(r) && w.c.todo.quitCancelled && OneSource(w.c.loop)
    requires w.c.loop.idle in w.c.loop.sources && w.c.loop.sources[w.c.loop.idle] == PendingEvents
    ensures AsksAgain(w, events)
  {
    var fire := MainLoopFires(w.c.loop.idle, false);
    LogoutFromIdle(w, r);
    var v1 := Next(w, Logout(r));
    LeaveAsks(v1);
    var v2 := Next(v1, LEAVE);
    TellingForgets(v2);
    var v3 := Next(v2, fire);
    var v4 := Next(v3, ReceiveShutdownCancelled);
    AskedAgainFromIdle(v4, r);
    hide Enabled, Next, Apply, AsksAgain, Free;
    AsksAgainAfter(v3, ReceiveShutdownCancelled, [Logout(r), LEAVE]);
    AsksAgainAfter(v2, fire, [ReceiveShutdownCancelled] + [Logout(r), LEAVE]);
    events := [fire] + ([ReceiveShutdownCancelled] + [Logout(r), LEAVE]);
    AsksAgainAfter(v1, LEAVE, events);
    AsksAgainAfter(w, Logout(r), [LEAVE] + events);
    events := [Logout(r)] + ([LEAVE] + events);
  }

  /** What a harmful message leaves behind. */
  lemma HarmfulLeaves(w: World, e: Event)
    requires Tracks(w) && Possible(w, e) && Harmful(w, e)
    ensures Next(w, e).c.todo == w.c.todo.(save := false) && Next(w, e).c.connected
    ensures var v := Next(w, e);
            (v.c.state == Idle && v.phase == PIdle) || (v.c.state == SaveYourselfDone && v.phase == PDone)
    ensures Next(w, e).interacting == w.interacting && OneSource(Next(w, e).c.loop)
    ensures !w.c.save.expectingInitial && !Next(w, e).c.save.expectingInitial && !w.c.todo.initial && !w.c.todo.quit
    ensures w.c.todo.quitCancelled ==> Next(w, e).c.loop == w.c.loop
    ensures Next(w, e).c.sent == [] && Next(w, e).c.emitted == []
  {
    ShortSends(OnReceive(w.phase, e), Apply(w.c, e).sent);
  }

  lemma CompletedIsFree(v: World)
    requires v.c.connected && v.c.state == SaveYourselfDone && v.phase == PDone && !v.c.save.expectingInitial
    requires !v.c.todo.initial && !v.c.todo.save && !v.c.todo.quit && v.c.sent == [] && v.c.emitted == []
    ensures Enabled(v, ReceiveSaveComplete) && Free(Next(v, ReceiveSaveComplete))
    ensures Next(v, ReceiveSaveComplete).c == v.c.(state := Idle)
    ensures Next(v, ReceiveSaveComplete).interacting == v.interacting
  {
  }

  lemma AskedAgainFromFree(v: World, r: Request) returns (events: seq<Event>)
    requires Free(v) && IsLogout(r) && OneSource(v.c.loop) && (v.interacting || v.c.todo.quitCancelled)
    requires v.c.todo.quitCancelled ==>
               v.c.loop.idle in v.c.loop.sources && v.c.loop.sources[v.c.loop.idle] == PendingEvents
    ensures AsksAgain(v, events)
  {
    if v.interacting {
      AskedAgainFromIdle(v, r);
      events := [Logout(r), LEAVE];
    } else {
      events := AskedAgainFromPending(v, r);
    }
  }

  /** After any harmful message, even a session manager that follows the diagram from then on can make the client ask
      a second time. */
  lemma HarmfulAsksAgain(w: World, e: Event, r: Request) returns (events: seq<Event>)
    requires Tracks(w) && Possible(w, e) && Harmful(w, e) && IsLogout(r)
    ensures AsksAgain(Next(w, e), events)
  {
    var v := Next(w, e);
    HarmfulLeaves(w, e);
    hide Next, Apply, AsksAgain;
    if v.c.state == Idle {
      events := AskedAgainFromFree(v, r);
    } else {
      CompletedIsFree(v);
      events := AskedAgainFromFree(Next(v, ReceiveSaveComplete), r);
      AsksAgainAfter(v, ReceiveSaveComplete, events);
      events := [ReceiveSaveComplete] + events;
    }
  }
}
