/** Cutting a list of names into command lines, in place and on a copy (fr-archive.c). */
module Chunks {
  import opened GLists

  /** <sys/param.h> on Linux. */
  const NCARGS := 131072
  const MAX_CHUNK_LEN := NCARGS * 2 / 3

  /** A command line of one chunk leaves room for the rest of what the system call passes on. */
  lemma ChunkFits(names: seq<string>, overhead: nat)
    ensures Cost(names, overhead) < MAX_CHUNK_LEN <==> |Characters(names)| + overhead * |names| < 87381
    ensures MAX_CHUNK_LEN < 131072
  {
    CostIsLength(names, overhead);
  }

  function Characters(names: seq<string>): string {
    if names == [] then "" else Characters(names[..|names| - 1]) + names[|names| - 1]
  }

  /** What the loops add up: the characters of the names, and the overhead of each. */
  lemma {:induction false} CostIsLength(names: seq<string>, overhead: nat)
    ensures Cost(names, overhead) == |Characters(names)| + overhead * |names|
  {
    if names != [] {
      CostIsLength(names[..|names| - 1], overhead);
    }
  }

  // ----- which chunks

  /** `overhead` is what each name costs besides its own length. */
  function Cost(names: seq<string>, overhead: nat): nat {
    if names == [] then 0 else Cost(names[..|names| - 1], overhead) + |names[|names| - 1]| + overhead
  }

  /** Starting from the first k names: how many go on one command line. */
  function ChunkLength(names: seq<string>, overhead: nat, k: nat): (n: nat)
    requires 1 <= k <= |names|
    ensures k <= n <= |names|
    decreases |names| - k
  {
    if k == |names| || Cost(names[..k + 1], overhead) >= MAX_CHUNK_LEN then k
    else ChunkLength(names, overhead, k + 1)
  }

  function Chunks(names: seq<string>, overhead: nat): seq<seq<string>>
    decreases |names|
  {
    if names == [] then []
    else var n := ChunkLength(names, overhead, 1); [names[..n]] + Chunks(names[n..], overhead)
  }

  function Concat(chunks: seq<seq<string>>): seq<string> {
    if chunks == [] then [] else chunks[0] + Concat(chunks[1..])
  }

  /** The chunks make up the list in order, none is empty, each stays below the limit unless it is a single
      name, and none could have taken the next name as well. */
  ghost predicate IsChunking(chunks: seq<seq<string>>, names: seq<string>, overhead: nat) {
    if chunks == [] then names == []
    else
      var c := chunks[0];
      && c != [] && c <= names
      && (|c| == 1 || Cost(c, overhead) < MAX_CHUNK_LEN)
      && (|c| < |names| ==> Cost(names[..|c| + 1], overhead) >= MAX_CHUNK_LEN)
      && IsChunking(chunks[1..], names[|c|..], overhead)
  }

  lemma {:induction false} CostGrows(names: seq<string>, overhead: nat, i: nat, j: nat)
    requires i <= j <= |names|
    ensures Cost(names[..i], overhead) <= Cost(names[..j], overhead)
    decreases j
  {
    if i < j {
      assert names[..j][..j - 1] == names[..j - 1];
      CostGrows(names, overhead, i, j - 1);
    }
  }

  lemma {:induction false} ChunkLengthGreedy(names: seq<string>, overhead: nat, k: nat)
    requires 1 <= k <= |names| && (k == 1 || Cost(names[..k], overhead) < MAX_CHUNK_LEN)
    ensures var n := ChunkLength(names, overhead, k);
            (n == 1 || Cost(names[..n], overhead) < MAX_CHUNK_LEN)
            && (n < |names| ==> Cost(names[..n + 1], overhead) >= MAX_CHUNK_LEN)
    decreases |names| - k
  {
    if k < |names| && Cost(names[..k + 1], overhead) < MAX_CHUNK_LEN {
      ChunkLengthGreedy(names, overhead, k + 1);
    }
  }

  lemma {:induction false} ChunkLengthUnique(names: seq<string>, overhead: nat, k: nat, n: nat)
    requires 1 <= k <= n <= |names| && (n == 1 || Cost(names[..n], overhead) < MAX_CHUNK_LEN)
    requires n < |names| ==> Cost(names[..n + 1], overhead) >= MAX_CHUNK_LEN
    ensures ChunkLength(names, overhead, k) == n
    decreases n - k
  {
    if k < n {
      CostGrows(names, overhead, k + 1, n);
      ChunkLengthUnique(names, overhead, k + 1, n);
    }
  }

  lemma {:induction false} ChunksAreChunking(names: seq<string>, overhead: nat)
    ensures IsChunking(Chunks(names, overhead), names, overhead)
    decreases |names|
  {
    if names != [] {
      var n := ChunkLength(names, overhead, 1);
      ChunkLengthGreedy(names, overhead, 1);
      ChunksAreChunking(names[n..], overhead);
      assert Chunks(names, overhead)[1..] == Chunks(names[n..], overhead);
    }
  }

  lemma {:induction false} ChunkingIsUnique(chunks: seq<seq<string>>, names: seq<string>, overhead: nat)
    requires IsChunking(chunks, names, overhead)
    ensures chunks == Chunks(names, overhead)
    decreases |chunks|
  {
    if chunks != [] {
      var m := |chunks[0]|;
      assert chunks[0] == names[..m] && chunks == [chunks[0]] + chunks[1..];
      ChunkLengthUnique(names, overhead, 1, m);
      ChunkingIsUnique(chunks[1..], names[m..], overhead);
    }
  }

  /** There is one such way to cut the list, and it is the one computed. */
  lemma ChunksCharacterised(chunks: seq<seq<string>>, names: seq<string>, overhead: nat)
    ensures IsChunking(chunks, names, overhead) <==> chunks == Chunks(names, overhead)
  {
    ChunksAreChunking(names, overhead);
    if IsChunking(chunks, names, overhead) {
      ChunkingIsUnique(chunks, names, overhead);
    }
  }

  lemma {:induction false} ChunksConcat(names: seq<string>, overhead: nat)
    ensures Concat(Chunks(names, overhead)) == names
    decreases |names|
  {
    if names != [] {
      var n := ChunkLength(names, overhead, 1);
      ChunksConcat(names[n..], overhead);
      assert names[..n] + names[n..] == names;
    }
  }

  // ----- the chunk loops

  datatype Action = Adding | Deleting | Extracting | Moving

  datatype Call = Call(action: Action, names: seq<string>)

  function Calls(action: Action, chunks: seq<seq<string>>): seq<Call> {
    if chunks == [] then [] else [Call(action, chunks[0])] + Calls(action, chunks[1..])
  }

  /** The external program: it sees the names on the list it is handed, up to the end of the list. */
  class Command {
    var calls: seq<Call>

    constructor ()
      ensures calls == []
    {
      calls := [];
    }

    method Run(action: Action, list: Node?, ghost nodes: seq<Node>)
      requires Chain(nodes) && list == At(nodes, 0)
      modifies this
      ensures calls == old(calls) + [Call(action, Data(nodes))]
    {
      var args: seq<string> := [];
      var scan := list;
      while scan != null
        invariant calls == old(calls) && |args| <= |nodes| && args == Data(nodes)[..|args|]
        invariant scan == At(nodes, |args|)
        decreases |nodes| - |args|
      {
        args := args + [scan.data];
        scan := scan.next;
      }
      assert args == Data(nodes);
      calls := calls + [Call(action, args)];
    }
  }

  /** The inner loop: how far one chunk reaches. `scan` stops behind the chunk, `prev` on its last node. */
  method NextChunk(list: Node, overhead: nat, ghost nodes: seq<Node>) returns (scan: Node?, prev: Node, ghost n: nat)
    requires Chain(nodes) && nodes != [] && list == nodes[0]
    ensures n == ChunkLength(Data(nodes), overhead, 1)
    ensures prev == nodes[n - 1] && scan == At(nodes, n)
  {
    ghost var names := Data(nodes);
    scan := list;
    prev := list;
    var l := 0;
    n := 0;
    assert names[..1][..0] == [] && names[..0] == [];
    while scan != null && l < MAX_CHUNK_LEN
      invariant n <= |nodes| && scan == At(nodes, n)
      invariant n == 0 ==> l == 0
      invariant n > 0 ==> prev == nodes[n - 1] && l == Cost(names[..if n < |nodes| then n + 1 else n], overhead)
      invariant n > 0 ==> ChunkLength(names, overhead, 1) == ChunkLength(names, overhead, n)
      decreases |nodes| - n
    {
      if l == 0 {
        l := overhead + |scan.data|;
        CostOfNext(names, overhead, n);
      }
      assert n < |nodes| && nodes[n] == scan;
      assert nodes[n].next == At(nodes, n + 1);
      prev := scan;
      scan := scan.next;
      n := n + 1;
      if scan != null {
        l := l + overhead + |scan.data|;
        CostOfNext(names, overhead, n);
      }
    }
  }

  lemma CostOfNext(names: seq<string>, overhead: nat, n: nat)
    requires n < |names|
    ensures Cost(names[..n + 1], overhead) == Cost(names[..n], overhead) + |names[n]| + overhead
  {
    assert names[..n + 1][..n] == names[..n];
  }

  /** One round of a chunk loop, from node k on: cut the chunk off, hand it over, join it again. */
  method RunOneChunk(action: Action, chunkList: Node, overhead: nat, command: Command, ghost nodes: seq<Node>,
                     ghost k: nat)
    returns (scan: Node?, ghost n: nat)
    requires Linked(nodes) && k < |nodes| && chunkList == nodes[k]
    modifies nodes, command
    ensures Linked(nodes)
    ensures forall i :: 0 <= i < |nodes| ==> nodes[i].next == old(nodes[i].next) && nodes[i].prev == old(nodes[i].prev)
    ensures n == ChunkLength(Data(nodes)[k..], overhead, 1) && scan == At(nodes, k + n)
    ensures command.calls == old(command.calls) + [Call(action, Data(nodes)[k..][..n])]
  {
    hide Data, ChunkLength, Linked;
    LinkedIsChain(nodes);
    RestIsChain(nodes, k);
    hide Chain;
    var prev;
    scan, prev, n := NextChunk(chunkList, overhead, nodes[k..]);
    RestNodes(nodes, k, n);
    prev.next := null;
    CutIsChain(nodes, k, n);
    command.Run(action, chunkList, nodes[k..k + n]);
    prev.next := scan;
    StillLinked(nodes);
  }

  lemma RestNodes(nodes: seq<Node>, k: nat, n: nat)
    requires k + n <= |nodes| && n > 0
    ensures nodes[k..][n - 1] == nodes[k + n - 1] && At(nodes[k..], n) == At(nodes, k + n)
    ensures Data(nodes[k..]) == Data(nodes)[k..] && Data(nodes[k..k + n]) == Data(nodes)[k..][..n]
  {
    hide Data;
    var part, data := nodes[k..k + n], Data(nodes)[k..][..n];
    assert forall i :: 0 <= i < n ==> part[i] == nodes[k + i];
    assert forall i :: 0 <= i < n ==> data[i] == nodes[k + i].data;
    assert Data(part) == data;
  }

  /** With the link behind the chunk cleared, the chunk is a list that ends. */
  lemma CutIsChain(nodes: seq<Node>, k: nat, n: nat)
    requires k + n <= |nodes| && n > 0 && Distinct(nodes)
    requires forall i :: 0 <= i < |nodes| ==> nodes[i].next == if i == k + n - 1 then null else At(nodes, i + 1)
    ensures Chain(nodes[k..k + n])
  {
    var part := nodes[k..k + n];
    forall i | 0 <= i < |part| ensures part[i].next == At(part, i + 1) {
      assert part[i] == nodes[k + i];
    }
  }

  /** The chunk loops of delete_from_archive and extract_from_archive (no overhead) and of move_files_in_chunks
      (the temporary directory and a slash). */
  method RunInChunks(action: Action, fileList: Node?, overhead: nat, command: Command, ghost nodes: seq<Node>)
    requires Linked(nodes) && fileList == At(nodes, 0)
    modifies nodes, command
    ensures Linked(nodes)
    ensures forall i :: 0 <= i < |nodes| ==> nodes[i].next == old(nodes[i].next) && nodes[i].prev == old(nodes[i].prev)
    ensures command.calls == old(command.calls) + Calls(action, Chunks(Data(nodes), overhead))
  {
    hide ChunkLength, Chunks, Linked, Data, Calls;
    var scan := fileList;
    ghost var k, names := 0, Data(nodes);
    ChunksWhole(names, overhead);
    while scan != null
      invariant k <= |nodes| && scan == At(nodes, k) && Linked(nodes)
      invariant forall i :: 0 <= i < |nodes| ==>
                  nodes[i].next == old(nodes[i].next) && nodes[i].prev == old(nodes[i].prev)
      invariant command.calls + Calls(action, Chunks(names[k..], overhead))
             == old(command.calls) + Calls(action, Chunks(names, overhead))
      decreases |nodes| - k
    {
      CallsNext(command.calls, action, names, overhead, k);
      ghost var n;
      scan, n := RunOneChunk(action, scan, overhead, command, nodes, k);
      k := k + n;
    }
    CallsEnd(command.calls, action, names, overhead, k);
  }

  lemma ChunksWhole(names: seq<string>, overhead: nat)
    ensures Chunks(names[0..], overhead) == Chunks(names, overhead)
  {
    assert names[0..] == names;
  }

  lemma CallsEnd(calls: seq<Call>, action: Action, names: seq<string>, overhead: nat, k: nat)
    requires k == |names|
    ensures calls + Calls(action, Chunks(names[k..], overhead)) == calls
  {
  }

  lemma ChunksNext(before: seq<seq<string>>, names: seq<string>, overhead: nat, k: nat)
    requires k < |names|
    ensures var n := ChunkLength(names[k..], overhead, 1);
            before + Chunks(names[k..], overhead) == before + [names[k..][..n]] + Chunks(names[k + n..], overhead)
  {
    var n := ChunkLength(names[k..], overhead, 1);
    assert names[k..][n..] == names[k + n..];
    assert before + ([names[k..][..n]] + Chunks(names[k + n..], overhead))
        == before + [names[k..][..n]] + Chunks(names[k + n..], overhead);
  }

  lemma CallsNext(calls: seq<Call>, action: Action, names: seq<string>, overhead: nat, k: nat)
    requires k < |names|
    ensures var n := ChunkLength(names[k..], overhead, 1);
            calls + Calls(action, Chunks(names[k..], overhead))
              == calls + [Call(action, names[k..][..n])] + Calls(action, Chunks(names[k + n..], overhead))
  {
    var n := ChunkLength(names[k..], overhead, 1);
    ChunksNext([], names, overhead, k);
    var first, rest := names[k..][..n], Chunks(names[k + n..], overhead);
    assert Chunks(names[k..], overhead) == [first] + rest && ([first] + rest)[1..] == rest;
    assert calls + ([Call(action, first)] + Calls(action, rest)) == calls + [Call(action, first)] + Calls(action, rest);
  }

  // ----- split_in_chunks

  lemma CutIsLinked(nodes: seq<Node>, n: nat)
    requires 0 < n <= |nodes| && Distinct(nodes)
    requires forall i :: 0 <= i < |nodes| ==> nodes[i].next == if i == n - 1 then null else At(nodes, i + 1)
    requires forall i :: 0 <= i < |nodes| ==> nodes[i].prev == if i == n then null else At(nodes, i - 1)
    ensures Linked(nodes[..n]) && Linked(nodes[n..])
  {
    var front, back := nodes[..n], nodes[n..];
    forall i | 0 <= i < |front| ensures front[i].next == At(front, i + 1) && front[i].prev == At(front, i - 1) {
      assert front[i] == nodes[i];
    }
    forall i | 0 <= i < |back| ensures back[i].next == At(back, i + 1) && back[i].prev == At(back, i - 1) {
      assert back[i] == nodes[n + i];
    }
  }

  /** One round of split_in_chunks: the chunk and the rest become lists of their own. */
  method CutChunk(list: Node, ghost nodes: seq<Node>) returns (scan: Node?, ghost n: nat)
    requires Linked(nodes) && nodes != [] && list == nodes[0]
    modifies nodes
    ensures n == ChunkLength(Data(nodes), 0, 1) && scan == At(nodes, n)
    ensures Linked(nodes[..n]) && Linked(nodes[n..])
  {
    hide Data, ChunkLength;
    var prev;
    scan, prev, n := NextChunk(list, 0, nodes);
    assert prev.next == scan;
    if prev.next != null {
      prev.next.prev := null;
    }
    prev.next := null;
    CutIsLinked(nodes, n);
  }

  function Flat(parts: seq<seq<Node>>): seq<Node> {
    if parts == [] then [] else Flat(parts[..|parts| - 1]) + parts[|parts| - 1]
  }

  function AllData(parts: seq<seq<Node>>): (r: seq<seq<string>>)
    ensures |r| == |parts| && forall i :: 0 <= i < |parts| ==> r[i] == Data(parts[i])
  {
    seq(|parts|, i requires 0 <= i < |parts| => Data(parts[i]))
  }

  lemma {:induction false} PartInFlat(parts: seq<seq<Node>>, i: nat)
    requires i < |parts|
    ensures forall x :: x in parts[i] ==> x in Flat(parts)
    decreases |parts|
  {
    if i < |parts| - 1 {
      PartInFlat(parts[..|parts| - 1], i);
    }
  }

  lemma DistinctApart(a: seq<Node>, b: seq<Node>, x: Node)
    requires Distinct(a + b) && x in a
    ensures x !in b
  {
    var i :| 0 <= i < |a| && a[i] == x;
    forall j | 0 <= j < |b| ensures b[j] != x {
      assert (a + b)[i] == a[i] && (a + b)[|a| + j] == b[j];
    }
  }

  /** Nodes of a part are none of the rest's, when all nodes are distinct. */
  lemma PartsApart(parts: seq<seq<Node>>, rest: seq<Node>)
    requires Distinct(Flat(parts) + rest)
    ensures forall i, x :: 0 <= i < |parts| && x in parts[i] ==> x !in rest
  {
    forall i, x | 0 <= i < |parts| && x in parts[i] ensures x !in rest {
      PartInFlat(parts, i);
      DistinctApart(Flat(parts), rest, x);
    }
  }

  /** Cutting a chunk off does not disturb the chunks cut off before. */
  method CutApart(list: Node, ghost nodes: seq<Node>, ghost parts: seq<seq<Node>>) returns (scan: Node?, ghost n: nat)
    requires Linked(nodes) && nodes != [] && list == nodes[0] && Distinct(Flat(parts) + nodes)
    requires forall i :: 0 <= i < |parts| ==> Linked(parts[i])
    modifies nodes
    ensures n == ChunkLength(Data(nodes), 0, 1) && scan == At(nodes, n)
    ensures Linked(nodes[..n]) && Linked(nodes[n..])
    ensures forall i :: 0 <= i < |parts| ==> Linked(parts[i])
  {
    hide Data, ChunkLength, Linked, Distinct, Flat;
    PartsApart(parts, nodes);
    scan, n := CutChunk(list, nodes);
    forall i | 0 <= i < |parts| ensures Linked(parts[i]) {
      assert forall j :: 0 <= j < |parts[i]| ==> parts[i][j] in parts[i] && parts[i][j] !in nodes;
      StillLinked(parts[i]);
    }
  }

  /** split_in_chunks: fresh, well-formed lists that share no node, holding the chunks; the argument is untouched. */
  method SplitInChunks(fileList: Node?, ghost nodes: seq<Node>) returns (chunks: seq<Node>, ghost parts: seq<seq<Node>>)
    requires Chain(nodes) && fileList == At(nodes, 0)
    ensures |chunks| == |parts| && AllData(parts) == Chunks(Data(nodes), 0)
    ensures fresh(Flat(parts)) && Distinct(Flat(parts))
    ensures forall i :: 0 <= i < |parts| ==> parts[i] != [] && Linked(parts[i]) && chunks[i] == parts[i][0]
  {
    hide Data, ChunkLength, Chunks, AllData, Flat, Linked, Distinct, Chain, Cost, Calls, IsChunking;
    chunks, parts := [], [];
    ghost var names := Data(nodes);
    var scan;
    ghost var rest;
    scan, rest := GListCopy(fileList, nodes);
    ghost var copies := rest;
    NoParts(copies, Chunks(names, 0));
    LinkedIsDistinct(copies);
    while scan != null
      invariant scan == At(rest, 0) && Linked(rest) && fresh(rest)
      invariant Flat(parts) + rest == copies && Distinct(copies)
      invariant |chunks| == |parts|
      invariant AllData(parts) + Chunks(Data(rest), 0) == Chunks(names, 0)
      invariant forall i :: 0 <= i < |parts| ==> parts[i] != [] && chunks[i] == parts[i][0]
      invariant forall i :: 0 <= i < |parts| ==> Linked(parts[i])
      decreases |rest|
    {
      ghost var n;
      chunks := chunks + [scan];
      scan, n := CutApart(scan, rest, parts);
      assert rest[..n] != [] && rest[..n][0] == rest[0];
      PartsSnoc(parts, rest, n, Chunks(Data(rest), 0));
      parts, rest := parts + [rest[..n]], rest[n..];
    }
    NothingLeft(rest, parts);
  }

  lemma NoParts(copies: seq<Node>, chunks: seq<seq<string>>)
    ensures Flat([]) + copies == copies && AllData([]) + chunks == chunks
  {
  }

  lemma NothingLeft(rest: seq<Node>, parts: seq<seq<Node>>)
    requires rest == []
    ensures Chunks(Data(rest), 0) == [] && AllData(parts) + [] == AllData(parts) && Flat(parts) + rest == Flat(parts)
  {
  }

  lemma PartsSnoc(parts: seq<seq<Node>>, rest: seq<Node>, n: nat, chunks: seq<seq<string>>)
    requires rest != [] && n == ChunkLength(Data(rest), 0, 1) && chunks == Chunks(Data(rest), 0)
    ensures Flat(parts + [rest[..n]]) == Flat(parts) + rest[..n]
    ensures Flat(parts + [rest[..n]]) + rest[n..] == Flat(parts) + rest
    ensures AllData(parts + [rest[..n]]) + Chunks(Data(rest[n..]), 0) == AllData(parts) + chunks
  {
    FlatSnoc(parts, rest, n);
    AllDataSnoc(parts, rest[..n]);
    DataSplit(rest, n);
    ChunksNext(AllData(parts), Data(rest), 0, 0);
    ChunksWhole(Data(rest), 0);
    hide *;
    assert Data(rest)[0..] == Data(rest);
  }

  lemma DataSplit(nodes: seq<Node>, n: nat)
    requires n <= |nodes|
    ensures Data(nodes[..n]) == Data(nodes)[..n] && Data(nodes[n..]) == Data(nodes)[n..]
  {
  }

  lemma FlatSnoc(parts: seq<seq<Node>>, rest: seq<Node>, n: nat)
    requires n <= |rest|
    ensures Flat(parts + [rest[..n]]) == Flat(parts) + rest[..n]
    ensures Flat(parts + [rest[..n]]) + rest[n..] == Flat(parts) + rest
  {
    assert (parts + [rest[..n]])[..|parts|] == parts;
    assert rest == rest[..n] + rest[n..];
  }

  lemma AllDataSnoc(parts: seq<seq<Node>>, part: seq<Node>)
    ensures AllData(parts + [part]) == AllData(parts) + [Data(part)]
  {
  }
}
