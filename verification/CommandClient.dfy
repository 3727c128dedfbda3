/** The worker thread of dropbox-command-client.c: one shared queue, any interleaving with the threads that push. */
module CommandClient {
  import opened Text

  datatype Kind = GetFileInfo | GeneralCommand
  datatype Request = Request(id: nat, kind: Kind)

  /** A queue entry: a request, or the token that asks for a reconnect. */
  datatype Item = Work(request: Request) | Reset

  datatype Note = ConnectNote | DisconnectNote

  /** How the exchanges with the server turn out for one request (lines 343-490). */
  datatype Replies = Replies(
    filename: bool,       // the file has a local, well-encoded name
    emblems: bool,        // get_emblems was answered
    statusError: bool,    // the connection failed during the status (or general) command
    directory: bool,
    tagError: bool)       // the connection failed during get_folder_tag

  /** What other threads and the server do during one round of the request loop. */
  datatype Turn = Turn(
    before: seq<Item>,      // pushed before the timed pop returns
    alive: bool,            // what check_connection finds if the pop times out
    during: seq<Item>,      // pushed while the request is being processed, or the channel checked
    replies: Replies,
    drain: seq<seq<Item>>,  // pushed before each try_pop, should the connection be given up
    late: seq<Item>)        // pushed after the last try_pop and before the connected flag is cleared

  /** One connection: what was pushed while connecting, and the rounds that follow. */
  datatype Connection = Connection(waiting: seq<Item>, turns: seq<Turn>)

  function RequestOf(item: Item): seq<Request> {
    match item
    case Work(r) => [r]
    case Reset => []
  }

  function Requests(items: seq<Item>): seq<Request> {
    if items == [] then [] else RequestOf(items[0]) + Requests(items[1..])
  }

  lemma ConcatAssoc(a: seq<Request>, b: seq<Request>, c: seq<Request>)
    ensures a + (b + c) == a + b + c
  {
  }

  lemma {:induction false} RequestsAppend(a: seq<Item>, b: seq<Item>)
    ensures Requests(a + b) == Requests(a) + Requests(b)
  {
    hide RequestOf;
    if a == [] {
      assert a + b == b;
    } else {
      assert (a + b)[1..] == a[1..] + b;
      RequestsAppend(a[1..], b);
      ConcatAssoc(RequestOf(a[0]), Requests(a[1..]), Requests(b));
    }
  }

  lemma RequestsSplit(items: seq<Item>, completed: seq<Request>)
    requires items != []
    ensures completed + [] + Requests(items) == completed + Requests([items[0]]) + Requests(items[1..])
  {
    assert items == [items[0]] + items[1..];
    RequestsAppend([items[0]], items[1..]);
    hide Requests;
    assert completed + [] == completed;
    ConcatAssoc(completed, Requests([items[0]]), Requests(items[1..]));
  }

  lemma RequestsOfOne(item: Item)
    ensures Requests([item]) == if item.Work? then [item.request] else []
  {
  }

  /** Connect, disconnect, connect, ... */
  ghost predicate Alternating(notes: seq<Note>) {
    forall k :: 0 <= k < |notes| ==> (notes[k] == ConnectNote <==> k % 2 == 0)
  }

  lemma AlternatingNext(notes: seq<Note>)
    requires Alternating(notes)
    ensures Alternating(notes + [if |notes| % 2 == 0 then ConnectNote else DisconnectNote])
  {
  }

  // ----- a first-in first-out queue, round by round

  function FirstOf(items: seq<Item>): Option<Item> {
    if items == [] then None else Some(items[0])
  }

  function Rest(items: seq<Item>): seq<Item> {
    if items == [] then [] else items[1..]
  }

  /** The queue before round i, if the connection has lasted so long. */
  function QueueAt(queue: seq<Item>, turns: seq<Turn>, i: nat): seq<Item>
    requires i <= |turns|
  {
    if i == 0 then queue else Rest(QueueAt(queue, turns, i - 1) + turns[i - 1].before) + turns[i - 1].during
  }

  lemma QueueStart(queue: seq<Item>, turns: seq<Turn>)
    ensures QueueAt(queue, turns, 0) == queue
  {
  }

  lemma QueueNext(queue: seq<Item>, turns: seq<Turn>, i: nat)
    requires i < |turns|
    ensures QueueAt(queue, turns, i + 1) == Rest(QueueAt(queue, turns, i) + turns[i].before) + turns[i].during
  {
  }

  /** The connection failed during a command that the request needs. */
  predicate Fails(r: Request, w: Replies) {
    if r.kind == GeneralCommand then w.statusError
    else w.filename && !w.emblems && (w.statusError || (w.directory && w.tagError))
  }

  predicate GoesOn(dc: Option<Item>, turn: Turn) {
    match dc
    case None => turn.alive
    case Some(Reset) => false
    case Some(Work(r)) => !Fails(r, turn.replies)
  }

  lemma RoundGoesOn(dc: Option<Item>, turn: Turn, connected: bool)
    requires connected <==> match dc
                            case None => turn.alive
                            case Some(Reset) => false
                            case Some(Work(r)) => !Fails(r, turn.replies)
    ensures GoesOn(dc, turn) <==> connected
  {
  }

  function Total(batches: seq<seq<Item>>): nat {
    if batches == [] then 0 else |batches[0]| + Total(batches[1..])
  }

  class DropboxCommandClient {
    var queue: seq<Item>
    var connected: bool
    var completed: seq<Request>
    var notes: seq<Note>
    ghost var pushed: seq<Item>
    ghost var inFlight: seq<Request>

    constructor ()
      ensures Accounted() && Notified() && !connected
      ensures inFlight == [] && pushed == [] && completed == [] && notes == []
    {
      queue, connected, completed, notes := [], false, [], [];
      pushed, inFlight := [], [];
    }

    /** Every request ever pushed has been completed, is being worked on, or is queued: once, and in order. */
    ghost predicate Accounted()
      reads this
    {
      Requests(pushed) == completed + inFlight + Requests(queue)
    }

    ghost predicate Notified()
      reads this
    {
      Alternating(notes) && (connected <==> |notes| % 2 == 1)
    }

    /** dropbox_command_client_request, from any thread. */
    method Push(items: seq<Item>)
      requires Accounted()
      modifies this`queue, this`pushed
      ensures Accounted() && queue == old(queue) + items && pushed == old(pushed) + items
    {
      RequestsAppend(queue, items);
      RequestsAppend(pushed, items);
      queue := queue + items;
      pushed := pushed + items;
      assert completed + inFlight + (Requests(old(queue)) + Requests(items))
          == completed + inFlight + Requests(old(queue)) + Requests(items);
    }

    /** dropbox_command_client_force_reconnect. */
    method ForceReconnect()
      requires Accounted()
      modifies this`queue, this`pushed
      ensures Accounted() && queue == old(queue) + if connected then [Reset] else []
      ensures Requests(pushed) == Requests(old(pushed))
    {
      if connected {
        RequestsAppend(pushed, [Reset]);
        Push([Reset]);
        assert Requests([Reset]) == [];
      }
    }

    /** g_async_queue_timed_pop and try_pop: a request leaves the queue and is in flight. */
    method Pop() returns (dc: Option<Item>)
      requires Accounted() && inFlight == []
      modifies this`queue, this`inFlight
      ensures Accounted()
      ensures old(queue) == [] ==> dc == None && queue == [] && inFlight == []
      ensures old(queue) != [] ==> dc == Some(old(queue)[0]) && queue == old(queue)[1..]
                                   && inFlight == Requests([old(queue)[0]])
    {
      if queue == [] {
        return None;
      }
      hide Requests;
      dc := Some(queue[0]);
      RequestsSplit(queue, completed);
      inFlight := Requests([queue[0]]);
      queue := queue[1..];
    }

    /** The completion of the request in flight is issued. */
    method Complete(r: Request)
      requires Accounted() && inFlight == [r]
      modifies this`completed, this`inFlight
      ensures Accounted() && inFlight == [] && completed == old(completed) + [r]
    {
      completed := completed + [r];
      inFlight := [];
      assert completed + inFlight + Requests(queue) == old(completed) + [r] + Requests(queue);
    }

    /** do_file_info_command: completes the request unless the connection failed in one of the two commands it
        needs; a file without a local name, or one whose emblems are known, needs neither. */
    method DoFileInfoCommand(r: Request, w: Replies) returns (gerr: bool)
      requires Accounted() && inFlight == [r]
      modifies this`completed, this`inFlight
      ensures gerr <==> w.filename && !w.emblems && (w.statusError || (w.directory && w.tagError))
      ensures Accounted() && completed == old(completed) + (if gerr then [] else [r])
      ensures inFlight == if gerr then [r] else []
    {
      if w.filename && !w.emblems {
        if w.statusError {
          return true;
        }
        if w.directory && w.tagError {
          return true;
        }
      }
      Complete(r);
      gerr := false;
    }

    /** do_general_command. */
    method DoGeneralCommand(r: Request, w: Replies) returns (gerr: bool)
      requires Accounted() && inFlight == [r]
      modifies this`completed, this`inFlight
      ensures gerr <==> w.statusError
      ensures Accounted() && completed == old(completed) + (if gerr then [] else [r])
      ensures inFlight == if gerr then [r] else []
    {
      if w.statusError {
        return true;
      }
      Complete(r);
      gerr := false;
    }

    /** end_request: a request is completed without a response, the reset token is not a request. */
    method EndRequest(dc: Item)
      requires Accounted() && inFlight == Requests([dc])
      modifies this`completed, this`inFlight
      ensures Accounted() && inFlight == [] && completed == old(completed) + Requests([dc])
    {
      if dc != Reset {
        Complete(dc.request);
      } else {
        assert completed + [] == completed;
      }
    }

    /** The switch over the request type, and end_request when the command failed. */
    method Process(r: Request, w: Replies) returns (gerr: bool)
      requires Accounted() && inFlight == [r]
      modifies this`completed, this`inFlight
      ensures Accounted() && inFlight == [] && completed == old(completed) + [r]
      ensures gerr <==> if r.kind == GeneralCommand then w.statusError
                        else w.filename && !w.emblems && (w.statusError || (w.directory && w.tagError))
    {
      match r.kind {
        case GetFileInfo => gerr := DoFileInfoCommand(r, w);
        case GeneralCommand => gerr := DoGeneralCommand(r, w);
      }
      if gerr {
        EndRequest(Work(r));
      }
    }

    /** The code at BADCONNECTION: empty the queue, while others may still push, and report the disconnect. What
        is pushed late stays in the queue for the next connection. */
    method GiveUp(drain: seq<seq<Item>>, late: seq<Item>)
      requires Accounted() && Notified() && inFlight == [] && connected
      modifies this
      ensures Accounted() && Notified() && inFlight == [] && !connected
      ensures notes == old(notes) + [DisconnectNote] && old(completed) <= completed && old(pushed) <= pushed
      ensures queue == late && Requests(pushed) == completed + Requests(late)
    {
      hide Requests, Alternating;
      var k := 0;
      while true
        invariant 0 <= k <= |drain| && Accounted() && inFlight == []
        invariant connected && notes == old(notes) && old(completed) <= completed && old(pushed) <= pushed
        decreases |queue| + Total(drain[k..]), |drain| - k
      {
        if k < |drain| {
          assert drain[k..][1..] == drain[k + 1..];
          Push(drain[k]);
          k := k + 1;
        }
        var dc := Pop();
        if dc == None {
          break;
        }
        EndRequest(dc.value);
      }
      Push(late);
      assert [] + late == late && completed + [] + Requests(late) == completed + Requests(late);
      connected := false;
      AlternatingNext(notes);
      notes := notes + [DisconnectNote];
    }

    /** One round of the request loop: the oldest item is served. The connection is given up exactly if there is none
        and the channel is dead, if it is the reset token, or if its exchange with the server fails. */
    method ServeRound(turn: Turn) returns (ghost dc: Option<Item>)
      requires Accounted() && Notified() && inFlight == [] && connected
      modifies this
      ensures Accounted() && Notified() && inFlight == []
      ensures old(completed) <= completed && old(pushed) <= pushed
      ensures dc == FirstOf(old(queue) + turn.before)
      ensures connected <==> match dc
                             case None => turn.alive
                             case Some(Reset) => false
                             case Some(Work(r)) => !Fails(r, turn.replies)
      ensures connected ==> notes == old(notes) && queue == Rest(old(queue) + turn.before) + turn.during
      ensures !connected ==> notes == old(notes) + [DisconnectNote] && queue == turn.late
    {
      hide Requests, Alternating;
      Push(turn.before);
      var item := Pop();
      dc := item;
      if item.Some? {
        RequestsOfOne(item.value);
      }
      if item == None {
        if !turn.alive {
          GiveUp(turn.drain, turn.late);
        } else {
          Push(turn.during);
        }
      } else if item.value == Reset {
        GiveUp(turn.drain, turn.late);
      } else {
        var r := item.value.request;
        Push(turn.during);
        var gerr := Process(r, turn.replies);
        if gerr {
          GiveUp(turn.drain, turn.late);
        }
      }
    }

    /** The request loop of one connection (lines 673-741); it may also still be running when the turns end. It serves
        one item a round, oldest first, and stays connected, and serves all rounds, exactly if every round found a
        living channel or a request whose exchange does not fail. */
    method ServeConnection(turns: seq<Turn>) returns (ghost popped: seq<Option<Item>>)
      requires Accounted() && Notified() && inFlight == [] && connected
      modifies this
      ensures Accounted() && Notified() && inFlight == [] && old(completed) <= completed
      ensures notes == old(notes) + (if connected then [] else [DisconnectNote]) && old(pushed) <= pushed
      ensures |popped| <= |turns|
      ensures forall i :: 0 <= i < |popped| ==> popped[i] == FirstOf(QueueAt(old(queue), turns, i) + turns[i].before)
      ensures connected ==> |popped| == |turns| && forall i :: 0 <= i < |popped| ==> GoesOn(popped[i], turns[i])
      ensures !connected ==>
                && popped != [] && !GoesOn(popped[|popped| - 1], turns[|popped| - 1])
                && forall i :: 0 <= i < |popped| - 1 ==> GoesOn(popped[i], turns[i])
      ensures queue == if connected then QueueAt(old(queue), turns, |turns|) else turns[|popped| - 1].late
    {
      hide Requests, Alternating, GoesOn, FirstOf, Rest, QueueAt;
      QueueStart(queue, turns);
      popped := [];
      var i := 0;
      while connected && i < |turns|
        invariant 0 <= i <= |turns| && |popped| == i && (!connected ==> i > 0)
        invariant Accounted() && Notified() && inFlight == [] && old(completed) <= completed
        invariant notes == old(notes) + (if connected then [] else [DisconnectNote]) && old(pushed) <= pushed
        invariant queue == if connected then QueueAt(old(queue), turns, i) else turns[i - 1].late
        invariant forall k :: 0 <= k < i ==> popped[k] == FirstOf(QueueAt(old(queue), turns, k) + turns[k].before)
        invariant forall k :: 0 <= k < i ==> (GoesOn(popped[k], turns[k]) <==> connected || k < i - 1)
      {
        QueueNext(old(queue), turns, i);
        ghost var dc := ServeRound(turns[i]);
        RoundGoesOn(dc, turns[i], connected);
        popped := popped + [dc];
        i := i + 1;
      }
    }

    /** The whole thread: connections follow one another; what is pushed in between waits in the queue. */
    method Run(connections: seq<Connection>) returns (served: nat)
      requires Accounted() && Notified() && inFlight == [] && !connected
      modifies this
      ensures Requests(pushed) == completed + Requests(queue)
      ensures Notified() && old(completed) <= completed && old(notes) <= notes && old(pushed) <= pushed
      ensures served <= |connections| && (!connected ==> served == |connections|)
      ensures |notes| == |old(notes)| + 2 * served - (if connected then 1 else 0)
    {
      hide Requests, Alternating, QueueAt, GoesOn, FirstOf, Rest;
      var i := 0;
      while i < |connections| && !connected
        invariant |notes| == |old(notes)| + 2 * i - (if connected then 1 else 0)
        invariant 0 <= i <= |connections| && Accounted() && Notified() && inFlight == []
        invariant old(completed) <= completed && old(notes) <= notes && old(pushed) <= pushed
      {
        Push(connections[i].waiting);
        connected := true;
        AlternatingNext(notes);
        notes := notes + [ConnectNote];
        ghost var _ := ServeConnection(connections[i].turns);
        i := i + 1;
      }
      served := i;
      assert completed + [] == completed;
    }
  }

  // ----- what the accounting means

  ghost predicate Distinct<T>(s: seq<T>) {
    forall i, j :: 0 <= i < j < |s| ==> s[i] != s[j]
  }

  lemma {:induction false} RequestsOf(items: seq<Item>, r: Request)
    ensures r in Requests(items) <==> Work(r) in items
  {
    if items != [] {
      RequestsOf(items[1..], r);
      assert items == [items[0]] + items[1..];
    }
  }

  /** Requests pushed once are completed at most once; one is completed or queued, never both, never neither. */
  lemma CompletedExactlyOnce(pushed: seq<Item>, completed: seq<Request>, queue: seq<Item>, r: Request)
    requires Requests(pushed) == completed + Requests(queue) && Distinct(Requests(pushed))
    ensures Distinct(completed)
    ensures Work(r) in pushed <==> (r in completed) != (Work(r) in queue)
    ensures r in completed ==> Work(r) in pushed
  {
    RequestsOf(pushed, r);
    RequestsOf(queue, r);
    var all := Requests(pushed);
    assert forall i :: 0 <= i < |completed| ==> all[i] == completed[i];
    assert forall j :: 0 <= j < |Requests(queue)| ==> all[|completed| + j] == Requests(queue)[j];
    assert forall i, j :: 0 <= i < |completed| && 0 <= j < |Requests(queue)| ==> completed[i] != Requests(queue)[j];
  }
}
