/** The request writer and the blocking argument reader of dropbox-command-client.c. */
module Wire {
  import opened Text
  import opened ClientUtil

  const MAX_ARGS := 20

  // ----- the two ends of a channel

  /** Lines that have arrived and not been read yet; `closed` once the peer has hung up. */
  class InChannel {
    var pending: seq<string>
    var closed: bool

    constructor (lines: seq<string>, closed: bool)
      ensures pending == lines && this.closed == closed
    {
      pending, this.closed := lines, closed;
    }

    /** A line with its newline cut off, or None when there is none (yet, unless closed). */
    method ReadLine() returns (line: Option<string>)
      modifies this`pending
      ensures line.None? <==> old(pending) == []
      ensures line.Some? ==> line.value == old(pending)[0] && pending == old(pending)[1..]
      ensures line.None? ==> pending == old(pending)
    {
      if pending == [] {
        line := None;
      } else {
        line := Some(pending[0]);
        pending := pending[1..];
      }
    }
  }

  class OutChannel {
    var text: string
    var room: nat    // how many more writes succeed

    constructor (room: nat)
      ensures text == "" && this.room == room
    {
      text, this.room := "", room;
    }

    /** Fails, writing nothing, once there is no room. */
    method Write(s: string) returns (ok: bool)
      modifies this
      ensures ok == (old(room) > 0)
      ensures text == old(text) + if ok then s else ""
      ensures room == if ok then old(room) - 1 else 0
    {
      ok := room > 0;
      if ok {
        text, room := text + s, room - 1;
      }
    }
  }

  // ----- writing a request

  ghost predicate KeysIn(keys: seq<string>, args: Table) {
    forall i :: 0 <= i < |keys| ==> keys[i] in args
  }

  ghost function ArgLines(args: Table, keys: seq<string>): (r: seq<string>)
    requires KeysIn(keys, args)
    ensures |r| == |keys| && forall i :: 0 <= i < |keys| ==> r[i] == ArgLine(keys[i], args[keys[i]])
  {
    seq(|keys|, i requires 0 <= i < |keys| => ArgLine(keys[i], args[keys[i]]))
  }

  ghost function RequestLines(name: string, args: Table, keys: seq<string>): seq<string>
    requires KeysIn(keys, args)
  {
    [Sanitize(name)] + ArgLines(args, keys) + ["done"]
  }

  function Terminated(lines: seq<string>): string {
    if lines == [] then "" else WithNewline(lines[0]) + Terminated(lines[1..])
  }

  function WithNewline(line: string): (r: string)
    ensures |r| == |line| + 1 && r[..|line|] == line && r[|line|] == '\n'
  {
    line + "\n"
  }

  lemma ConcatAssoc(a: string, b: string, c: string)
    ensures a + (b + c) == a + b + c
  {
  }

  lemma {:induction false} TerminatedAppend(a: seq<string>, b: seq<string>)
    ensures Terminated(a + b) == Terminated(a) + Terminated(b)
  {
    if a == [] {
      assert a + b == b;
    } else {
      assert (a + b)[1..] == a[1..] + b;
      TerminatedAppend(a[1..], b);
      ConcatAssoc(WithNewline(a[0]), Terminated(a[1..]), Terminated(b));
    }
  }

  lemma TerminatedSnoc(lines: seq<string>, n: nat)
    requires n < |lines|
    ensures Terminated(lines[..n + 1]) == Terminated(lines[..n]) + WithNewline(lines[n])
  {
    assert lines[..n + 1] == lines[..n] + [lines[n]];
    TerminatedAppend(lines[..n], [lines[n]]);
    assert Terminated([lines[n]]) == WithNewline(lines[n]) + Terminated([]);
  }

  lemma FirstLineTerminated(lines: seq<string>)
    requires lines != []
    ensures Terminated(lines[..1]) == WithNewline(lines[0])
  {
    TerminatedSnoc(lines, 0);
  }

  lemma NextLineTerminated(before: string, lines: seq<string>, n: nat)
    requires n < |lines|
    ensures before + Terminated(lines[..n]) + WithNewline(lines[n]) == before + Terminated(lines[..n + 1])
  {
    TerminatedSnoc(lines, n);
    ConcatAssoc(before, Terminated(lines[..n]), WithNewline(lines[n]));
  }

  /** `keys` lists the keys of the table in the order the hash table happens to give them. */
  ghost predicate IsKeyOrder(keys: seq<string>, args: Table) {
    KeysIn(keys, args) && (forall k :: k in args ==> k in keys)
    && forall i, j :: 0 <= i < j < |keys| ==> keys[i] != keys[j]
  }

  /** A write stopped somewhere within `whole`. */
  ghost predicate Partial(before: string, after: string, whole: string) {
    before <= after <= before + whole
  }

  lemma PartialInside(before: string, mid: string, after: string, w: string, rest: string)
    requires Partial(before + mid, after, w)
    ensures Partial(before, after, mid + w + rest)
  {
    ConcatAssoc(before, mid, w);
    ConcatAssoc(before, mid + w, rest);
    assert before <= before + mid;
    PrefixWithin(before + (mid + w), after, rest);
  }

  lemma SplitAt(lines: seq<string>, n: nat)
    requires n < |lines|
    ensures lines == lines[..n + 1] + lines[n + 1..]
  {
  }

  lemma TerminatedSplit(lines: seq<string>, n: nat)
    requires n < |lines|
    ensures Terminated(lines) == Terminated(lines[..n]) + WithNewline(lines[n]) + Terminated(lines[n + 1..])
  {
    hide *;
    SplitAt(lines, n);
    TerminatedAppend(lines[..n + 1], lines[n + 1..]);
    TerminatedSnoc(lines, n);
  }

  lemma TerminatedPrefix(before: string, after: string, lines: seq<string>, n: nat)
    requires n < |lines| && Partial(before + Terminated(lines[..n]), after, WithNewline(lines[n]))
    ensures Partial(before, after, Terminated(lines))
  {
    hide *;
    TerminatedSplit(lines, n);
    PartialInside(before, Terminated(lines[..n]), after, WithNewline(lines[n]), Terminated(lines[n + 1..]));
  }

  lemma PrefixWithin(a: string, after: string, b: string)
    requires after <= a
    ensures after <= a + b
  {
  }

  /** The writer of send_command_to_db; it gives up at the first write that fails. */
  method WriteRequest(chan: OutChannel, name: string, args: Table, keys: seq<string>) returns (ok: bool)
    requires IsKeyOrder(keys, args)
    modifies chan
    ensures ok ==> chan.text == old(chan.text) + Terminated(RequestLines(name, args, keys))
    ensures !ok ==> chan.room == 0 && Partial(old(chan.text), chan.text, Terminated(RequestLines(name, args, keys)))
  {
    hide Terminated, RequestLines, Partial, WithNewline;
    ghost var lines := RequestLines(name, args, keys);
    RequestLineEnds(name, args, keys);
    NothingTerminated(old(chan.text), lines);
    ok := WriteLine(chan, Sanitize(name));
    if !ok {
      TerminatedPrefix(old(chan.text), chan.text, lines, 0);
      return;
    }
    FirstLineTerminated(lines);
    var li := 0;
    while li < |keys|
      invariant 0 <= li <= |keys| && ok
      invariant chan.text == old(chan.text) + Terminated(lines[..li + 1])
    {
      RequestLineAt(name, args, keys, li);
      ok := WriteArgument(chan, keys[li], args[keys[li]]);
      if !ok {
        TerminatedPrefix(old(chan.text), chan.text, lines, li + 1);
        return;
      }
      NextLineTerminated(old(chan.text), lines, li + 1);
      li := li + 1;
    }
    ok := WriteLine(chan, "done");
    if !ok {
      TerminatedPrefix(old(chan.text), chan.text, lines, |keys| + 1);
      return;
    }
    NextLineTerminated(old(chan.text), lines, |keys| + 1);
    assert lines[..|lines|] == lines;
  }

  lemma RequestLineEnds(name: string, args: Table, keys: seq<string>)
    requires KeysIn(keys, args)
    ensures var lines := RequestLines(name, args, keys);
            |lines| == |keys| + 2 && lines[0] == Sanitize(name) && lines[|keys| + 1] == "done"
  {
    hide ClientUtil.ArgLine, ClientUtil.Sanitize, ArgLines;
  }

  lemma RequestLineAt(name: string, args: Table, keys: seq<string>, i: nat)
    requires KeysIn(keys, args) && i < |keys|
    ensures |RequestLines(name, args, keys)| == |keys| + 2
    ensures RequestLines(name, args, keys)[i + 1] == ArgLine(keys[i], args[keys[i]])
  {
    hide ClientUtil.ArgLine, ClientUtil.Sanitize, ArgLines;
  }

  lemma NothingTerminated(before: string, lines: seq<string>)
    ensures before + Terminated(lines[..0]) == before
  {
  }

  method WriteLine(chan: OutChannel, s: string) returns (ok: bool)
    modifies chan
    ensures ok ==> chan.text == old(chan.text) + WithNewline(s)
    ensures !ok ==> chan.room == 0 && Partial(old(chan.text), chan.text, WithNewline(s))
  {
    ok := chan.Write(s);
    if ok {
      ok := chan.Write("\n");
    }
  }

  /** The body of the key loop: the key, then a tab before each value, then the newline. */
  method WriteArgument(chan: OutChannel, key: string, value: seq<string>) returns (ok: bool)
    modifies chan
    ensures ok ==> chan.text == old(chan.text) + WithNewline(ArgLine(key, value))
    ensures !ok ==> chan.room == 0 && Partial(old(chan.text), chan.text, WithNewline(ArgLine(key, value)))
  {
    hide Join;
    ghost var words := [Sanitize(key)] + SanitizeAll(value);
    FirstWordJoined(words);
    ok := chan.Write(Sanitize(key));
    if !ok {
      return;
    }
    var i := 0;
    while i < |value|
      invariant 0 <= i <= |value| && ok
      invariant chan.text == old(chan.text) + Join(words[..i + 1], '\t')
    {
      NextWordJoined(old(chan.text), words, i + 1);
      JoinPrefix(old(chan.text), words, i + 1);
      ok := chan.Write("\t");
      if !ok {
        return;
      }
      ok := chan.Write(Sanitize(value[i]));
      if !ok {
        return;
      }
      i := i + 1;
    }
    assert words[..i + 1] == words;
    ConcatAssoc(old(chan.text), ArgLine(key, value), "\n");
    ok := chan.Write("\n");
  }

  lemma PartialStart(before: string, done: string, rest: string)
    ensures Partial(before, before + done, done + rest)
  {
    ConcatAssoc(before, done, rest);
  }

  /** What has been written before and after the tab is part of the whole line. */
  lemma JoinPrefix(before: string, words: seq<string>, n: nat)
    requires 0 < n < |words|
    ensures Partial(before, before + Join(words[..n], '\t'), WithNewline(Join(words, '\t')))
    ensures Partial(before, before + Join(words[..n], '\t') + "\t", WithNewline(Join(words, '\t')))
  {
    var tail := JoinSplit(words, n);
    hide Join, Partial;
    var j, rest := Join(words[..n], '\t'), tail + "\n";
    ConcatAssoc(j + "\t", tail, "\n");
    ConcatAssoc(j, "\t", rest);
    ConcatAssoc(before, j, "\t");
    PartialStart(before, j, "\t" + rest);
    PartialStart(before, j + "\t", rest);
  }

  lemma {:induction false} JoinSplit(words: seq<string>, n: nat) returns (tail: string)
    requires 0 < n < |words|
    ensures Join(words, '\t') == Join(words[..n], '\t') + "\t" + tail
    decreases |words| - n
  {
    assert words[..n + 1] == words[..n] + [words[n]];
    JoinSnoc(words[..n], '\t', words[n]);
    if n + 1 == |words| {
      assert words[..n + 1] == words;
      tail := words[n];
    } else {
      var more := JoinSplit(words, n + 1);
      tail := words[n] + "\t" + more;
      var j := Join(words[..n], '\t');
      assert j + "\t" + words[n] + "\t" + more == j + "\t" + (words[n] + "\t" + more);
    }
  }

  lemma FirstWordJoined(words: seq<string>)
    requires words != []
    ensures Join(words[..1], '\t') == words[0]
  {
  }

  lemma NextWordJoined(before: string, words: seq<string>, n: nat)
    requires 0 < n < |words|
    ensures before + Join(words[..n], '\t') + "\t" + words[n] == before + Join(words[..n + 1], '\t')
  {
    assert words[..n + 1] == words[..n] + [words[n]];
    JoinSnoc(words[..n], '\t', words[n]);
    ConcatAssoc(before, Join(words[..n], '\t'), "\t");
    ConcatAssoc(before, Join(words[..n], '\t') + "\t", words[n]);
  }

  // ----- reading a text line by line

  /** The lines a reader with line terminator "\n" gets from a complete text. */
  function LinesOf(text: string): seq<string>
    decreases |text|
  {
    if '\n' !in text then (if text == "" then [] else [text])
    else var i := IndexOf(text, '\n'); [text[..i]] + LinesOf(text[i + 1..])
  }

  lemma {:induction false} LinesOfTerminated(lines: seq<string>)
    requires forall i :: 0 <= i < |lines| ==> '\n' !in lines[i]
    ensures LinesOf(Terminated(lines)) == lines
  {
    if lines != [] {
      LinesOfTerminated(lines[1..]);
      FirstLine(lines[0], Terminated(lines[1..]));
      assert Terminated(lines) == lines[0] + "\n" + Terminated(lines[1..]);
      assert [lines[0]] + lines[1..] == lines;
    }
  }

  lemma FirstLine(line: string, rest: string)
    requires '\n' !in line
    ensures LinesOf(line + "\n" + rest) == [line] + LinesOf(rest)
  {
    IndexOfAfter(line, '\n', rest);
    var text := line + ['\n'] + rest;
    assert line + "\n" + rest == text;
    assert text[..|line|] == line && text[|line| + 1..] == rest;
  }

  // ----- reading arguments until "done"

  datatype Scan =
    | Finished(args: Table, rest: seq<string>)
    | Halted(rest: seq<string>)
    | Starved(args: Table, numargs: nat)

  /** The format both readers implement: at most 19 argument lines, then "done". */
  function ReadArgs(lines: seq<string>, args: Table, numargs: nat): (r: Scan)
    ensures r.Finished? ==> |r.rest| < |lines|
  {
    if numargs >= MAX_ARGS then Halted(lines)
    else if lines == [] then Starved(args, numargs)
    else if lines[0] == "done" then Finished(args, lines[1..])
    else
      match ParseArg(lines[0], args)
      case None => Halted(lines[1..])
      case Some(t) => ReadArgs(lines[1..], t, numargs + 1)
  }

  /** The text before the first tab names the entry, and the fields behind it are its values. */
  ghost function Enter(args: Table, line: string): Table {
    var words := Fields(line, '\t');
    args[Desanitize(words[0]) := DesanitizeAll(words[1..])]
  }

  /** The table after some argument lines: a later line replaces an earlier one of the same name. */
  ghost function Entered(args: Table, lines: seq<string>): Table {
    if lines == [] then args else Enter(Entered(args, lines[..|lines| - 1]), lines[|lines| - 1])
  }

  lemma {:induction false} EnteredFirst(args: Table, line: string, lines: seq<string>)
    ensures Entered(Enter(args, line), lines) == Entered(args, [line] + lines)
  {
    hide Enter;
    if lines == [] {
      assert [line] + lines == [line] && [line][..0] == [];
    } else {
      EnteredFirst(args, line, lines[..|lines| - 1]);
      assert ([line] + lines)[..|lines|] == [line] + lines[..|lines| - 1];
    }
  }

  /** A line is an argument line if and only if it has a tab. */
  lemma ParseArgMeans(line: string, args: Table)
    ensures ParseArg(line, args) == if '\t' in line then Some(Enter(args, line)) else None
    ensures '\t' in line ==> line != "done"
  {
    hide Desanitize, DesanitizeAll;
  }

  lemma ReadArgsStep(line: string, lines: seq<string>, args: Table, numargs: nat)
    requires numargs < 20 && '\t' in line
    ensures ReadArgs([line] + lines, args, numargs) == ReadArgs(lines, Enter(args, line), numargs + 1)
  {
    hide ParseArg, Enter;
    ParseArgMeans(line, args);
    assert ([line] + lines)[1..] == lines;
  }

  lemma ReadArgsEnds(rest: seq<string>, args: Table, numargs: nat)
    ensures var r := ReadArgs(rest, args, numargs);
            && (numargs == 20 ==> r == Halted(rest))
            && (numargs < 20 && rest == [] ==> r == Starved(args, numargs))
            && (numargs < 20 && rest != [] && rest[0] == "done" ==> r == Finished(args, rest[1..]))
            && (numargs < 20 && rest != [] && rest[0] != "done" && '\t' !in rest[0] ==> r == Halted(rest[1..]))
  {
    hide ParseArg, Enter;
    if rest != [] {
      ParseArgMeans(rest[0], args);
    }
  }

  /** What the reader makes of a run of argument lines, by what comes behind them. */
  lemma {:induction false} ReadArgsMeans(lines: seq<string>, rest: seq<string>, args: Table, numargs: nat)
    requires (forall i :: 0 <= i < |lines| ==> '\t' in lines[i]) && numargs + |lines| <= 20
    ensures var r, t, n := ReadArgs(lines + rest, args, numargs), Entered(args, lines), numargs + |lines|;
            && (n == 20 ==> r == Halted(rest))
            && (n < 20 && rest == [] ==> r == Starved(t, n))
            && (n < 20 && rest != [] && rest[0] == "done" ==> r == Finished(t, rest[1..]))
            && (n < 20 && rest != [] && rest[0] != "done" && '\t' !in rest[0] ==> r == Halted(rest[1..]))
    decreases |lines|
  {
    hide Entered, Enter, ReadArgs;
    if lines == [] {
      assert lines + rest == rest;
      NothingEntered(args);
      ReadArgsEnds(rest, args, numargs);
    } else {
      var line, more := lines[0], lines[1..];
      EnteredFirst(args, line, more);
      ReadArgsStep(line, more + rest, args, numargs);
      assert [line] + more == lines && lines + rest == [line] + (more + rest);
      ReadArgsMeans(more, rest, Enter(args, line), numargs + 1);
    }
  }

  lemma NothingEntered(args: Table)
    ensures Entered(args, []) == args
  {
  }

  /** How reading the arguments ends. NoLine: a read timed out, and the code goes on with a line it does not
      have. */
  datatype Received = Complete | Refused | NoLine

  /** receive_args_until_done: without a line a blocking read means that the peer has closed the connection, or
      that the time for an answer is over. */
  method ReceiveArgsUntilDone(chan: InChannel, returnTable: HashTable) returns (received: Received)
    modifies chan`pending, returnTable
    ensures match ReadArgs(old(chan.pending), old(returnTable.entries), 0)
            case Finished(args, rest) =>
              received == Complete && returnTable.entries == args && chan.pending == rest
            case Halted(rest) => received == Refused && chan.pending == rest
            case Starved(_, _) => received == (if chan.closed then Refused else NoLine) && chan.pending == []
  {
    var numargs := 0;
    while true
      invariant ReadArgs(old(chan.pending), old(returnTable.entries), 0)
             == ReadArgs(chan.pending, returnTable.entries, numargs)
      decreases |chan.pending|
    {
      if numargs >= MAX_ARGS {
        return Refused;
      }
      var line := chan.ReadLine();
      if line.None? {
        return if chan.closed then Refused else NoLine;
      }
      if line.value == "done" {
        break;
      }
      var parsed := CommandParseArg(line.value, returnTable);
      if !parsed {
        return Refused;
      }
      numargs := numargs + 1;
    }
    received := Complete;
  }

  // ----- the round trip

  ghost predicate WireText(name: string, args: Table) {
    NulFree(name) && forall k :: k in args ==> NulFree(k) && NulFreeAll(args[k])
  }

  /** The entries of the first n keys. */
  ghost function FirstEntries(args: Table, keys: seq<string>, n: nat): Table
    requires n <= |keys| && KeysIn(keys, args)
  {
    map k | k in keys[..n] :: args[k]
  }

  /** The argument lines from key n on, followed by "done" and whatever comes next. */
  ghost function LinesFrom(args: Table, keys: seq<string>, n: nat, tail: seq<string>): seq<string>
    requires n <= |keys| && KeysIn(keys, args)
  {
    ArgLines(args, keys)[n..] + ["done"] + tail
  }

  lemma LinesFromStep(args: Table, keys: seq<string>, n: nat, tail: seq<string>)
    requires n <= |keys| && KeysIn(keys, args)
    ensures var lines := LinesFrom(args, keys, n, tail);
            if n == |keys| then lines == ["done"] + tail
            else lines == [ArgLine(keys[n], args[keys[n]])] + LinesFrom(args, keys, n + 1, tail)
  {
  }

  lemma FirstEntriesStep(args: Table, keys: seq<string>, n: nat)
    requires n <= |keys| && IsKeyOrder(keys, args)
    ensures n == |keys| ==> FirstEntries(args, keys, n) == args
    ensures n < |keys| ==> FirstEntries(args, keys, n)[keys[n] := args[keys[n]]] == FirstEntries(args, keys, n + 1)
  {
    if n == |keys| {
      assert keys[..n] == keys;
    } else {
      assert keys[..n + 1] == keys[..n] + [keys[n]];
    }
  }

  ghost function ScanAt(args: Table, keys: seq<string>, n: nat, tail: seq<string>): Scan
    requires n <= |keys| && KeysIn(keys, args)
  {
    ReadArgs(LinesFrom(args, keys, n, tail), FirstEntries(args, keys, n), n)
  }

  lemma ScanStep(args: Table, keys: seq<string>, n: nat, tail: seq<string>)
    requires IsKeyOrder(keys, args) && WireText("", args)
    requires n < |keys| && n < MAX_ARGS
    ensures args[keys[n]] != [] ==> ScanAt(args, keys, n, tail) == ScanAt(args, keys, n + 1, tail)
    ensures args[keys[n]] == [] ==> ScanAt(args, keys, n, tail) != Finished(args, tail)
  {
    var key, lines, table := keys[n], LinesFrom(args, keys, n, tail), FirstEntries(args, keys, n);
    LinesFromStep(args, keys, n, tail);
    FirstEntriesStep(args, keys, n);
    ArgLineParses(key, args[key], table);
    assert lines[1..] == LinesFrom(args, keys, n + 1, tail);
    assert |lines[1..]| > |tail|;
  }

  lemma {:induction false} ScanFrom(args: Table, keys: seq<string>, n: nat, tail: seq<string>)
    requires IsKeyOrder(keys, args) && WireText("", args)
    requires n <= |keys| && n <= MAX_ARGS
    ensures ScanAt(args, keys, n, tail) == Finished(args, tail)
       <==> |keys| < MAX_ARGS && forall i :: n <= i < |keys| ==> args[keys[i]] != []
    decreases |keys| - n
  {
    if n == |keys| {
      LinesFromStep(args, keys, n, tail);
      FirstEntriesStep(args, keys, n);
    } else if n < MAX_ARGS {
      ScanStep(args, keys, n, tail);
      if args[keys[n]] != [] {
        ScanFrom(args, keys, n + 1, tail);
      }
    }
  }

  /** A table written in any key order is read back exactly when it has at most 19 keys, each with a value. */
  lemma ArgsRoundTrip(args: Table, keys: seq<string>, tail: seq<string>)
    requires IsKeyOrder(keys, args) && WireText("", args)
    ensures ReadArgs(ArgLines(args, keys) + ["done"] + tail, map[], 0) == Finished(args, tail)
       <==> |keys| <= 19 && forall k :: k in args ==> args[k] != []
  {
    ScanFrom(args, keys, 0, tail);
    assert FirstEntries(args, keys, 0) == map[];
    assert LinesFrom(args, keys, 0, tail) == ArgLines(args, keys) + ["done"] + tail;
    forall k | k in args ensures exists i :: 0 <= i < |keys| && keys[i] == k {
      assert k in keys;
    }
  }

  /** A scan that ends early, because a key without values reads "done", has not got the whole table. */
  lemma {:induction false} WholeTableFrom(args: Table, keys: seq<string>, n: nat, tail: seq<string>)
    requires IsKeyOrder(keys, args) && WireText("", args)
    requires n <= |keys| && n <= MAX_ARGS
    requires ScanAt(args, keys, n, tail).Finished? && ScanAt(args, keys, n, tail).args == args
    ensures |keys| < MAX_ARGS && forall i :: n <= i < |keys| ==> args[keys[i]] != []
    decreases |keys| - n
  {
    hide ScanAt, WireText;
    if n == MAX_ARGS {
      TooManyKeys(args, keys, n, tail);
    } else if n < |keys| {
      if args[keys[n]] == [] {
        ValuelessKey(args, keys, n, tail);
      } else {
        ScanStep(args, keys, n, tail);
        WholeTableFrom(args, keys, n + 1, tail);
      }
    }
  }

  lemma TooManyKeys(args: Table, keys: seq<string>, n: nat, tail: seq<string>)
    requires n <= |keys| && KeysIn(keys, args) && n >= MAX_ARGS
    ensures ScanAt(args, keys, n, tail).Halted?
  {
  }

  lemma ValuelessKey(args: Table, keys: seq<string>, n: nat, tail: seq<string>)
    requires IsKeyOrder(keys, args) && WireText("", args)
    requires n < |keys| && n < MAX_ARGS && args[keys[n]] == []
    ensures ScanAt(args, keys, n, tail).Finished? ==> ScanAt(args, keys, n, tail).args != args
  {
    var key, table := keys[n], FirstEntries(args, keys, n);
    LinesFromStep(args, keys, n, tail);
    ArgLineParses(key, args[key], table);
    assert key in args;
    assert key !in keys[..n];
    hide ClientUtil.ArgLine, ClientUtil.ParseArg;
  }

  /** Whatever is read after the written lines, the whole table is read exactly when it has at most 19 keys, each
      with a value. */
  lemma WholeTableIff(args: Table, keys: seq<string>, tail: seq<string>)
    requires IsKeyOrder(keys, args) && WireText("", args)
    ensures var r := ReadArgs(ArgLines(args, keys) + ["done"] + tail, map[], 0);
            (r.Finished? && r.args == args) <==> (|keys| <= 19 && forall k :: k in args ==> args[k] != [])
  {
    ArgsRoundTrip(args, keys, tail);
    assert FirstEntries(args, keys, 0) == map[];
    assert LinesFrom(args, keys, 0, tail) == ArgLines(args, keys) + ["done"] + tail;
    var r := ReadArgs(ArgLines(args, keys) + ["done"] + tail, map[], 0);
    if r.Finished? && r.args == args {
      WholeTableFrom(args, keys, 0, tail);
      forall k | k in args ensures args[k] != [] {
        var i :| 0 <= i < |keys| && keys[i] == k;
      }
    }
  }

  /** Cutting the written text at its newlines gives back the request lines. */
  lemma RequestTextLines(name: string, args: Table, keys: seq<string>)
    requires IsKeyOrder(keys, args)
    ensures LinesOf(Terminated(RequestLines(name, args, keys))) == RequestLines(name, args, keys)
  {
    forall i | 0 <= i < |keys| + 2 ensures '\n' !in RequestLines(name, args, keys)[i] {
      RequestLineClean(name, args, keys, i);
    }
    LinesOfTerminated(RequestLines(name, args, keys));
  }

  lemma RequestLineClean(name: string, args: Table, keys: seq<string>, i: nat)
    requires KeysIn(keys, args) && i < |keys| + 2
    ensures '\n' !in RequestLines(name, args, keys)[i]
  {
    hide ClientUtil.Sanitize, ClientUtil.ArgLine;
    if i == 0 {
      SanitizedIsClean(name);
    } else if i <= |keys| {
      ArgLineFields(keys[i - 1], args[keys[i - 1]]);
    }
  }
}
