/** athena-dropbox-hooks.c: the hook reader written as a coroutine over async-io-coroutine.h. */
module Hooks {
  import opened Text
  import opened ClientUtil
  import opened Wire

  /** A hook that was called, with the arguments it was given. */
  datatype Call = Call(hook: string, args: Table)

  function Dispatch(hooks: set<string>, name: string, args: Table): seq<Call> {
    if name in hooks then [Call(name, args)] else []
  }

  // ----- the sequential reader: one uninterrupted pass over all lines

  datatype Outcome =
    | Waiting(calls: seq<Call>)
    | Broken(calls: seq<Call>, unread: seq<string>)

  function After(first: seq<Call>, o: Outcome): Outcome {
    match o
    case Waiting(calls) => Waiting(first + calls)
    case Broken(calls, unread) => Broken(first + calls, unread)
  }

  function ReadCommands(hooks: set<string>, lines: seq<string>): Outcome
    decreases |lines|
  {
    if lines == [] then Waiting([])
    else
      match ReadArgs(lines[1..], map[], 0)
      case Starved(_, _) => Waiting([])
      case Halted(rest) => Broken([], rest)
      case Finished(args, rest) => After(Dispatch(hooks, Desanitize(lines[0]), args), ReadCommands(hooks, rest))
  }

  /** A whole command calls the hook of its name, if there is one, with its arguments, and nothing else; reading goes
      on behind it. */
  lemma CommandCalls(hooks: set<string>, name: string, lines: seq<string>, rest: seq<string>)
    requires (forall i :: 0 <= i < |lines| ==> '\t' in lines[i]) && |lines| < 20
    ensures var r, next := ReadCommands(hooks, [name] + (lines + (["done"] + rest))), ReadCommands(hooks, rest);
            && (Desanitize(name) in hooks ==> r.calls == [Call(Desanitize(name), Entered(map[], lines))] + next.calls)
            && (Desanitize(name) !in hooks ==> r.calls == next.calls)
            && r.Waiting? == next.Waiting? && (r.Broken? ==> r.unread == next.unread)
  {
    hide ReadArgs, Entered;
    var all := [name] + (lines + (["done"] + rest));
    ReadArgsMeans(lines, ["done"] + rest, map[], 0);
    assert all[0] == name && all[1..] == lines + (["done"] + rest) && (["done"] + rest)[1..] == rest;
  }

  /** A command that is not whole calls nothing: the reader waits for more lines, or stops for good behind a line
      without a tab or behind the twentieth argument line. */
  lemma CommandEnds(hooks: set<string>, name: string, lines: seq<string>, rest: seq<string>)
    requires (forall i :: 0 <= i < |lines| ==> '\t' in lines[i]) && |lines| <= 20
    ensures var r := ReadCommands(hooks, [name] + (lines + rest));
            && (|lines| == 20 ==> r == Broken([], rest))
            && (|lines| < 20 && rest == [] ==> r == Waiting([]))
            && (|lines| < 20 && rest != [] && rest[0] != "done" && '\t' !in rest[0] ==> r == Broken([], rest[1..]))
    ensures ReadCommands(hooks, []) == Waiting([])
  {
    hide ReadArgs;
    var all := [name] + (lines + rest);
    ReadArgsMeans(lines, rest, map[], 0);
    assert all[0] == name && all[1..] == lines + rest;
  }

  // ----- the resumable machine: what survives from one wake-up to the next

  datatype Machine =
    | Running(name: Option<string>, args: Table, numargs: nat, calls: seq<Call>)
    | Stopped(calls: seq<Call>, unread: seq<string>)

  const START := Running(None, map[], 0, [])

  function Step(hooks: set<string>, m: Machine, line: string): Machine {
    match m
    case Stopped(calls, unread) => Stopped(calls, unread + [line])
    case Running(None, _, _, calls) => Running(Some(Desanitize(line)), map[], 0, calls)
    case Running(Some(name), args, numargs, calls) =>
      if line == "done" then Running(None, map[], 0, calls + Dispatch(hooks, name, args))
      else
        match ParseArg(line, args)
        case None => Stopped(calls, [])
        case Some(t) =>
          if numargs + 1 >= MAX_ARGS then Stopped(calls, []) else Running(Some(name), t, numargs + 1, calls)
  }

  function Feed(hooks: set<string>, m: Machine, lines: seq<string>): Machine
    decreases |lines|
  {
    if lines == [] then m else Feed(hooks, Step(hooks, m, lines[0]), lines[1..])
  }

  lemma FeedNext(hooks: set<string>, m: Machine, lines: seq<string>)
    ensures lines == [] ==> Feed(hooks, m, lines) == m
    ensures lines != [] ==> Feed(hooks, m, lines) == Feed(hooks, Step(hooks, m, lines[0]), lines[1..])
  {
  }

  /** Where the lines are cut into wake-ups makes no difference. */
  lemma {:induction false} FeedConcat(hooks: set<string>, m: Machine, a: seq<string>, b: seq<string>)
    ensures Feed(hooks, m, a + b) == Feed(hooks, Feed(hooks, m, a), b)
    decreases |a|
  {
    hide Step;
    if a == [] {
      assert a + b == b;
    } else {
      FeedConcat(hooks, Step(hooks, m, a[0]), a[1..], b);
      assert (a + b)[1..] == a[1..] + b;
    }
  }

  lemma {:induction false} FeedStopped(hooks: set<string>, calls: seq<Call>, unread: seq<string>, lines: seq<string>)
    ensures Feed(hooks, Stopped(calls, unread), lines) == Stopped(calls, unread + lines)
    decreases |lines|
  {
    if lines != [] {
      FeedStopped(hooks, calls, unread + [lines[0]], lines[1..]);
      assert unread + [lines[0]] + lines[1..] == unread + lines;
    } else {
      assert unread + lines == unread;
    }
  }

  ghost predicate Agrees(m: Machine, before: seq<Call>, o: Outcome) {
    match o
    case Waiting(calls) => m.Running? && m.calls == before + calls
    case Broken(calls, unread) => m == Stopped(before + calls, unread)
  }

  /** Inside a command the machine follows the argument reader. */
  lemma {:induction false} FeedArgs(hooks: set<string>, name: string, args: Table, numargs: nat,
                                    calls: seq<Call>, lines: seq<string>)
    requires numargs < MAX_ARGS
    ensures var m := Feed(hooks, Running(Some(name), args, numargs, calls), lines);
            match ReadArgs(lines, args, numargs)
            case Starved(_, _) => m.Running? && m.calls == calls
            case Halted(rest) => m == Stopped(calls, rest)
            case Finished(t, rest) => m == Feed(hooks, Running(None, map[], 0, calls + Dispatch(hooks, name, t)), rest)
    decreases |lines|
  {
    hide ClientUtil.ParseArg;
    if lines != [] && lines[0] != "done" {
      match ParseArg(lines[0], args)
      case None =>
        FeedStopped(hooks, calls, [], lines[1..]);
      case Some(t) =>
        if numargs + 1 >= MAX_ARGS {
          FeedStopped(hooks, calls, [], lines[1..]);
        } else {
          FeedArgs(hooks, name, t, numargs + 1, calls, lines[1..]);
        }
    }
  }

  /** The machine makes the calls of the sequential reader and stops on the same line. */
  lemma {:induction false} FeedIsSequential(hooks: set<string>, calls: seq<Call>, lines: seq<string>)
    ensures Agrees(Feed(hooks, Running(None, map[], 0, calls), lines), calls, ReadCommands(hooks, lines))
    decreases |lines|
  {
    if lines != [] {
      var name := Desanitize(lines[0]);
      FeedArgs(hooks, name, map[], 0, calls, lines[1..]);
      match ReadArgs(lines[1..], map[], 0)
      case Starved(_, _) =>
      case Halted(_) =>
      case Finished(args, rest) =>
        var first := Dispatch(hooks, name, args);
        FeedIsSequential(hooks, calls + first, rest);
        AfterAgrees(Feed(hooks, Running(None, map[], 0, calls + first), rest), calls, first, ReadCommands(hooks, rest));
    }
  }

  lemma AfterAgrees(m: Machine, before: seq<Call>, first: seq<Call>, o: Outcome)
    requires Agrees(m, before + first, o)
    ensures Agrees(m, before, After(first, o))
  {
    assert before + first + o.calls == before + (first + o.calls);
  }

  // ----- the code

  class Name {
    const text: string

    constructor (text: string)
      ensures this.text == text
    {
      this.text := text;
    }
  }

  /** Resume labels: the program points of the two CRREADLINEs, and two that never survive a yield. */
  datatype Label = Start | AtName | Check | AtArg

  class HookServer {
    var line: Label
    var commandName: Name?
    var commandArgs: HashTable?
    var numargs: nat
    var connected: bool
    var hooks: set<string>
    var calls: seq<Call>
    ghost var liveNames: set<Name>
    ghost var liveTables: set<HashTable>

    constructor (hooks: set<string>)
      ensures Owned() && Resumable(line) && View(line) == START && this.hooks == hooks && calls == []
    {
      line, commandName, commandArgs, numargs, connected := Start, null, null, 0, false;
      this.hooks, calls := hooks, [];
      liveNames, liveTables := {}, {};
    }

    /** Exactly the name and table the fields point to are allocated. */
    ghost predicate Owned()
      reads this
    {
      liveNames == Names() && liveTables == Tables()
    }

    ghost function Names(): set<Name>
      reads this
    {
      if commandName == null then {} else {commandName}
    }

    ghost function Tables(): set<HashTable>
      reads this
    {
      if commandArgs == null then {} else {commandArgs}
    }

    /** What the fields must hold for the machine to be resumable at a label. */
    ghost predicate Resumable(at: Label)
      reads this, commandArgs
    {
      match at
      case Start => commandName == null && commandArgs == null
      case AtName => commandName == null && commandArgs != null && commandArgs.entries == map[] && numargs == 0
      case Check => commandName != null && commandArgs != null && numargs <= MAX_ARGS
      case AtArg => commandName != null && commandArgs != null && numargs < MAX_ARGS
    }

    /** The machine state the fields stand for at a label. */
    ghost function View(at: Label): Machine
      requires Resumable(at)
      reads this, commandArgs
    {
      if at == Start || at == AtName then Running(None, map[], 0, calls)
      else if numargs >= MAX_ARGS then Stopped(calls, [])
      else Running(Some(commandName.text), commandArgs.entries, numargs, calls)
    }

    method FreeName()
      requires commandName != null && commandName in liveNames
      modifies this`liveNames, this`commandName
      ensures commandName == null && liveNames == old(liveNames) - {old(commandName)}
    {
      liveNames := liveNames - {commandName};
      commandName := null;
    }

    method UnrefArgs()
      requires commandArgs != null && commandArgs in liveTables
      modifies this`liveTables, this`commandArgs
      ensures commandArgs == null && liveTables == old(liveTables) - {old(commandArgs)}
    {
      liveTables := liveTables - {commandArgs};
      commandArgs := null;
    }

    /** The table of the next command (lines 57-63 of the reader). */
    method BeginCommand()
      requires Owned() && Resumable(Start)
      modifies this`commandArgs, this`liveTables, this`numargs
      ensures Owned() && Resumable(AtName) && fresh(commandArgs)
    {
      commandArgs := new HashTable();
      liveTables := liveTables + {commandArgs};
      numargs := 0;
    }

    method TakeName(text: string)
      requires Owned() && Resumable(AtName)
      modifies this`commandName, this`liveNames
      ensures Owned() && Resumable(Check) && View(Check) == Step(hooks, old(View(AtName)), text)
    {
      commandName := new Name(Desanitize(text));
      liveNames := liveNames + {commandName};
    }

    /** One line of the argument loop: "done" runs the hook, anything else must parse. */
    method TakeLine(text: string) returns (ok: bool, next: Label)
      requires Owned() && Resumable(AtArg)
      modifies this`commandName, this`commandArgs, this`numargs, this`calls
      modifies this`liveNames, this`liveTables, commandArgs
      ensures Owned() && Tables() <= old(Tables())
      ensures ok ==> Resumable(next) && View(next) == Step(hooks, old(View(AtArg)), text)
      ensures !ok ==> Step(hooks, old(View(AtArg)), text) == Stopped(calls, [])
    {
      hide ClientUtil.ParseArg, ClientUtil.Desanitize;
      if text == "done" {
        if commandName.text in hooks {
          calls := calls + [Call(commandName.text, commandArgs.entries)];
        }
        FreeName();
        UnrefArgs();
        return true, Start;
      }
      ok := CommandParseArg(text, commandArgs);
      next := Check;
      if ok {
        numargs := numargs + 1;
      }
    }

    /** handle_hook_server_input: one wake-up. Returns false when the source is to be removed. */
    method HandleInput(chan: InChannel) returns (keep: bool)
      requires Owned() && Resumable(line)
      modifies this, chan`pending, Tables()
      ensures Owned() && hooks == old(hooks) && fresh(Tables() - old(Tables()))
      ensures var m := Feed(hooks, old(View(line)), old(chan.pending));
              if m.Stopped? then !keep && calls == m.calls && chan.pending == m.unread
              else chan.pending == [] && calls == m.calls && keep == !chan.closed
      ensures keep ==> Resumable(line) && View(line) == Feed(hooks, old(View(line)), old(chan.pending))
    {
      hide ClientUtil.ParseArg, ClientUtil.Desanitize, Step, Feed;
      ghost var goal := Feed(hooks, View(line), chan.pending);
      var at := line;
      while true
        invariant Owned() && Resumable(at) && hooks == old(hooks) && fresh(Tables() - old(Tables()))
        invariant Feed(hooks, View(at), chan.pending) == goal
        decreases |chan.pending|
      {
        if at == Start {
          BeginCommand();
          at := AtName;
        }
        if at == AtName {
          FeedNext(hooks, View(AtName), chan.pending);
          var name := chan.ReadLine();
          if name.None? {
            line := AtName;
            return !chan.closed;
          }
          TakeName(name.value);
          at := Check;
        }
        if at == Check {
          if numargs >= MAX_ARGS {
            FeedStopped(hooks, calls, [], chan.pending);
            return false;
          }
          at := AtArg;
        }
        FeedNext(hooks, View(AtArg), chan.pending);
        var arg := chan.ReadLine();
        if arg.None? {
          line := AtArg;
          return !chan.closed;
        }
        var ok;
        ok, at := TakeLine(arg.value);
        if !ok {
          FeedStopped(hooks, calls, [], chan.pending);
          return false;
        }
      }
    }

    /** watch_killer up to the reconnect: whatever the reader still holds is freed, once. */
    method WatchKiller()
      requires Owned()
      modifies this
      ensures !connected && commandName == null && commandArgs == null
      ensures liveNames == {} && liveTables == {}
      ensures hooks == old(hooks) && calls == old(calls)
    {
      connected := false;
      if commandName != null {
        FreeName();
      }
      if commandArgs != null {
        UnrefArgs();
      }
    }

    /** The state reset of try_to_connect, which overwrites the two pointers without freeing. */
    method Connected()
      requires liveNames == {} && liveTables == {}
      modifies this
      ensures Owned() && Resumable(line) && View(line) == Running(None, map[], 0, calls)
      ensures connected && commandArgs == null && hooks == old(hooks) && calls == old(calls)
    {
      line := Start;
      commandArgs := null;
      commandName := null;
      connected := true;
    }

    /** One connection: the lines arrive in any number of batches, then the peer hangs up. */
    method ServeConnection(batches: seq<seq<string>>) returns (unread: seq<string>, used: nat)
      requires liveNames == {} && liveTables == {}
      modifies this
      ensures liveNames == {} && liveTables == {} && hooks == old(hooks) && !connected
      ensures used <= |batches|
      ensures match ReadCommands(hooks, Flatten(batches))
              case Waiting(made) => calls == old(calls) + made && unread == [] && used == |batches|
              case Broken(made, rest) => calls == old(calls) + made && unread + Flatten(batches[used..]) == rest
    {
      hide Step, ReadCommands;
      Connected();
      var chan := new InChannel([], false);
      var keep := true;
      used := 0;
      ghost var start := View(line);
      while keep && used < |batches|
        invariant used <= |batches| && Owned() && hooks == old(hooks) && fresh(Tables())
        invariant keep ==> Resumable(line) && chan.pending == [] && !chan.closed
        invariant keep ==> View(line) == Feed(hooks, start, Flatten(batches[..used]))
        invariant !keep ==> Feed(hooks, start, Flatten(batches[..used])) == Stopped(calls, chan.pending)
      {
        chan.pending := batches[used];
        FlattenSnoc(batches, used);
        FeedConcat(hooks, start, Flatten(batches[..used]), batches[used]);
        used := used + 1;
        keep := HandleInput(chan);
      }
      FlattenSplit(batches, used);
      FeedConcat(hooks, start, Flatten(batches[..used]), Flatten(batches[used..]));
      FeedIsSequential(hooks, start.calls, Flatten(batches));
      if keep {
        chan.closed := true;
        keep := HandleInput(chan);
      } else {
        FeedStopped(hooks, calls, chan.pending, Flatten(batches[used..]));
      }
      unread := chan.pending;
      WatchKiller();
    }
  }

  function Flatten(batches: seq<seq<string>>): seq<string> {
    if batches == [] then [] else batches[0] + Flatten(batches[1..])
  }

  lemma {:induction false} FlattenSplit(batches: seq<seq<string>>, n: nat)
    requires n <= |batches|
    ensures Flatten(batches) == Flatten(batches[..n]) + Flatten(batches[n..])
  {
    if n == 0 {
      assert batches[0..] == batches;
    } else {
      FlattenSplit(batches[1..], n - 1);
      assert batches[..n][1..] == batches[1..][..n - 1] && batches[1..][n - 1..] == batches[n..];
    }
  }

  lemma FlattenSnoc(batches: seq<seq<string>>, n: nat)
    requires n < |batches|
    ensures Flatten(batches[..n + 1]) == Flatten(batches[..n]) + batches[n]
  {
    FlattenSplit(batches[..n + 1], n);
    assert batches[..n + 1][..n] == batches[..n] && batches[..n + 1][n..] == [batches[n]];
  }

  // ----- the wire round trip

  lemma OneCommand(hooks: set<string>, name: string, rest: seq<string>, args: Table)
    requires ReadArgs(rest, map[], 0) == Finished(args, [])
    ensures ReadCommands(hooks, [name] + rest) == Waiting(Dispatch(hooks, Desanitize(name), args))
  {
    assert ([name] + rest)[1..] == rest;
    assert ReadCommands(hooks, []) == Waiting([]);
  }

  lemma FirstCall(hooks: set<string>, name: string, rest: seq<string>, call: Call)
    requires Desanitize(name) in hooks && ReadCommands(hooks, [name] + rest) == Waiting([call])
    ensures var r := ReadArgs(rest, map[], 0); r.Finished? && r.args == call.args
  {
    assert ([name] + rest)[1..] == rest;
    var r := ReadArgs(rest, map[], 0);
    if r.Finished? {
      var more := ReadCommands(hooks, r.rest);
      var first := Dispatch(hooks, Desanitize(name), r.args);
      assert first == [Call(Desanitize(name), r.args)];
      assert (first + more.calls)[0] == first[0];
    }
  }

  /** A request written on one side and read by the hook reader on the other makes the one call, with the same name
      and table, exactly when the table has at most 19 keys, each with a value. */
  lemma RequestReachesHook(hooks: set<string>, name: string, args: Table, keys: seq<string>)
    requires IsKeyOrder(keys, args) && WireText(name, args) && name in hooks
    ensures ReadCommands(hooks, LinesOf(Terminated(RequestLines(name, args, keys)))) == Waiting([Call(name, args)])
       <==> (|keys| <= 19 && forall k :: k in args ==> args[k] != [])
  {
    hide ClientUtil.ParseArg, ClientUtil.Desanitize, ReadArgs, ReadCommands, LinesOf, ClientUtil.ArgLine, Dispatch;
    RequestTextLines(name, args, keys);
    SanitizeRoundTrip(name);
    var rest := ArgLines(args, keys) + ["done"];
    assert rest + [] == rest;
    assert RequestLines(name, args, keys) == [Sanitize(name)] + rest;
    ArgsRoundTrip(args, keys, []);
    WholeTableIff(args, keys, []);
    if |keys| <= 19 && forall k :: k in args ==> args[k] != [] {
      OneCommand(hooks, Sanitize(name), rest, args);
      DispatchKnown(hooks, name, args);
    }
    if ReadCommands(hooks, [Sanitize(name)] + rest) == Waiting([Call(name, args)]) {
      FirstCall(hooks, Sanitize(name), rest, Call(name, args));
    }
  }

  lemma DispatchKnown(hooks: set<string>, name: string, args: Table)
    requires name in hooks
    ensures Dispatch(hooks, name, args) == [Call(name, args)]
  {
  }
}
