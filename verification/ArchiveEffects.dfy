/** What adding to an archive does to its contents, when the command only appends and stale entries have to be
    deleted first (fr_archive_add and delete_from_archive in fr-archive.c). */
module ArchiveEffects {
  import opened Text
  import opened Chunks
  import opened PathLists
  import opened Archive

  // ----- an archive that only ever appends

  datatype Entry = Entry(name: string, version: int)

  /** What a deletion takes along: the names, and whatever lies inside a folder among them. */
  ghost predicate Takes(names: seq<string>, x: string) {
    x in names || InFolder(x, names)
  }

  ghost function Dropped(contents: seq<Entry>, names: seq<string>): seq<Entry> {
    if contents == [] then []
    else (if Takes(names, contents[0].name) then [] else [contents[0]]) + Dropped(contents[1..], names)
  }

  /** The entries whose name is not in the list. */
  function Without(contents: seq<Entry>, list: seq<string>): seq<Entry> {
    if contents == [] then []
    else (if contents[0].name in list then [] else [contents[0]]) + Without(contents[1..], list)
  }

  /** The entries of one name, in order. */
  function Named(contents: seq<Entry>, name: string): seq<Entry> {
    if contents == [] then []
    else (if contents[0].name == name then [contents[0]] else []) + Named(contents[1..], name)
  }

  function FromDisk(names: seq<string>, disk: string -> int): seq<Entry> {
    if names == [] then [] else [Entry(names[0], disk(names[0]))] + FromDisk(names[1..], disk)
  }

  /** What one command line does: adding appends, whether or not the name is there; deleting drops all entries
      of the names and all that lies inside a folder among them. */
  ghost function Perform(contents: seq<Entry>, call: Call, disk: string -> int): seq<Entry> {
    match call.action
    case Adding => contents + FromDisk(call.names, disk)
    case Deleting => Dropped(contents, call.names)
    case _ => contents
  }

  ghost function After(contents: seq<Entry>, calls: seq<Call>, disk: string -> int): seq<Entry>
    decreases |calls|
  {
    if calls == [] then contents else After(Perform(contents, calls[0], disk), calls[1..], disk)
  }

  lemma {:induction false} AfterBoth(contents: seq<Entry>, a: seq<Call>, b: seq<Call>, disk: string -> int)
    ensures After(contents, a + b, disk) == After(After(contents, a, disk), b, disk)
    decreases |a|
  {
    if a == [] {
      assert a + b == b;
    } else {
      assert (a + b)[1..] == a[1..] + b;
      AfterBoth(Perform(contents, a[0], disk), a[1..], b, disk);
    }
  }

  // ----- deleting

  lemma TakesBoth(a: seq<string>, b: seq<string>, x: string)
    ensures Takes(a + b, x) <==> Takes(a, x) || Takes(b, x)
  {
    if i :| 0 <= i < |a| && a[i] != "" && IsFolder(a[i]) && PathInPath(a[i], x) {
      assert (a + b)[i] == a[i];
    }
    if i :| 0 <= i < |b| && b[i] != "" && IsFolder(b[i]) && PathInPath(b[i], x) {
      assert (a + b)[|a| + i] == b[i];
    }
  }

  lemma {:induction false} DroppedTwice(contents: seq<Entry>, a: seq<string>, b: seq<string>)
    ensures Dropped(Dropped(contents, a), b) == Dropped(contents, a + b)
  {
    hide Takes;
    if contents != [] {
      DroppedTwice(contents[1..], a, b);
      TakesBoth(a, b, contents[0].name);
      var rest := Dropped(contents[1..], a);
      if !Takes(a, contents[0].name) {
        assert ([contents[0]] + rest)[1..] == rest;
      } else {
        assert [] + rest == rest;
      }
    }
  }

  lemma {:induction false} DroppedNone(contents: seq<Entry>)
    ensures Dropped(contents, []) == contents
  {
    if contents != [] {
      DroppedNone(contents[1..]);
    }
  }

  lemma {:induction false} DroppedAlike(contents: seq<Entry>, a: seq<string>, b: seq<string>)
    requires forall k :: 0 <= k < |contents| ==> (Takes(a, contents[k].name) <==> Takes(b, contents[k].name))
    ensures Dropped(contents, a) == Dropped(contents, b)
  {
    hide Takes;
    if contents != [] {
      assert Takes(a, contents[0].name) <==> Takes(b, contents[0].name);
      DroppedAlike(contents[1..], a, b);
    }
  }

  /** However a list is cut into command lines, the deletions and additions are those of the whole list. */
  lemma {:induction false} ChunkedDelete(contents: seq<Entry>, chunks: seq<seq<string>>, disk: string -> int)
    ensures After(contents, Calls(Deleting, chunks), disk) == Dropped(contents, Concat(chunks))
    decreases |chunks|
  {
    hide Dropped;
    if chunks == [] {
      DroppedNone(contents);
    } else {
      var calls := Calls(Deleting, chunks);
      assert calls[1..] == Calls(Deleting, chunks[1..]);
      ChunkedDelete(Dropped(contents, chunks[0]), chunks[1..], disk);
      DroppedTwice(contents, chunks[0], Concat(chunks[1..]));
    }
  }

  /** Leaving out what lies in a requested folder makes no difference to what a deletion takes along. */
  lemma HandedOverTakes(list: seq<string>, can: bool, x: string)
    requires NoEmpty(list)
    ensures Takes(HandedOver(list, can), x) <==> Takes(list, x)
  {
    if !can {
      HandedOverMembers(list, false, x);
      if InFolder(x, HandedOver(list, false)) {
        HandedFolderIsListed(list, x);
      }
      if InFolder(x, list) {
        var i := OutermostFolder(x, list);
        HandedOverMembers(list, false, list[i]);
        var j :| 0 <= j < |HandedOver(list, false)| && HandedOver(list, false)[j] == list[i];
      }
    } else {
      assert HandedOver(list, true) == list;
    }
  }

  /** Deleting a list, as a whole request, takes along exactly what the list does. */
  lemma DeleteEffect(files: seq<FileData>, can: Abilities, contents: seq<Entry>, list: seq<string>, disk: string -> int)
    requires NoEmpty(list) && NoEmpty(Reversed(Names(files))) && list != []
    ensures After(contents, DeleteCalls(files, can, list), disk) == Dropped(contents, list)
  {
    var handed := HandedOver(list, can.canDeleteNonEmptyFolders);
    ChunksConcat(handed, 0);
    ChunkedDelete(contents, Chunks.Chunks(handed, 0), disk);
    hide HandedOver, Dropped, Takes;
    forall k | 0 <= k < |contents| ensures Takes(handed, contents[k].name) <==> Takes(list, contents[k].name) {
      HandedOverTakes(list, can.canDeleteNonEmptyFolders, contents[k].name);
    }
    DroppedAlike(contents, handed, list);
  }

  // ----- adding

  lemma EntryAssoc(a: seq<Entry>, b: seq<Entry>, c: seq<Entry>)
    ensures a + (b + c) == a + b + c
  {
  }

  lemma {:induction false} FromDiskBoth(a: seq<string>, b: seq<string>, disk: string -> int)
    ensures FromDisk(a + b, disk) == FromDisk(a, disk) + FromDisk(b, disk)
  {
    if a == [] {
      assert a + b == b;
    } else {
      assert (a + b)[1..] == a[1..] + b;
      FromDiskBoth(a[1..], b, disk);
      EntryAssoc([Entry(a[0], disk(a[0]))], FromDisk(a[1..], disk), FromDisk(b, disk));
    }
  }

  lemma {:induction false} ChunkedAdd(contents: seq<Entry>, chunks: seq<seq<string>>, disk: string -> int)
    ensures After(contents, Calls(Adding, chunks), disk) == contents + FromDisk(Concat(chunks), disk)
    decreases |chunks|
  {
    if chunks == [] {
      assert contents + [] == contents;
    } else {
      var calls := Calls(Adding, chunks);
      assert calls[1..] == Calls(Adding, chunks[1..]);
      hide FromDisk, Calls;
      var more, rest := FromDisk(chunks[0], disk), FromDisk(Concat(chunks[1..]), disk);
      ChunkedAdd(contents + more, chunks[1..], disk);
      FromDiskBoth(chunks[0], Concat(chunks[1..]), disk);
      EntryAssoc(contents, more, rest);
    }
  }

  /** The entries deleted before `list` is added: those of the names the search finds, and what lies inside the
      folders among them. */
  function Stale(files: seq<FileData>, list: seq<string>): seq<string> {
    Reversed(Present(files, list))
  }

  lemma StaleMembers(files: seq<FileData>, list: seq<string>, x: string)
    ensures x in Stale(files, list) <==> x in list && Search(files, x, 0, |files|) >= 0
  {
    ReversedMembers(Present(files, list), x);
    PresentMembers(files, list, x);
  }

  /** What adding does, whatever the names and the index: the stale entries go, all others stay as they are, and the
      files are appended. In particular the archive is never emptied. */
  lemma {:induction false} AddEffect(files: seq<FileData>, can: Abilities, contents: seq<Entry>, list: seq<string>,
                                     update: bool, disk: string -> int)
    requires NoEmpty(list) && NoEmpty(Reversed(Names(files))) && MustDelete(can, update)
    ensures After(contents, AddCalls(files, can, list, update), disk)
         == Dropped(contents, Stale(files, list)) + FromDisk(list, disk)
  {
    PresentNoEmpty(files, list);
    var stale := Stale(files, list);
    var adding := Calls(Adding, Chunks.Chunks(list, 0));
    var first := if stale != [] then DeleteCalls(files, can, stale) else [];
    if stale == [] {
      DroppedNone(contents);
    } else {
      DeleteEffect(files, can, contents, stale, disk);
    }
    ChunksConcat(list, 0);
    ChunkedAdd(Dropped(contents, stale), Chunks.Chunks(list, 0), disk);
    AfterBoth(contents, first, adding, disk);
  }

  // ----- the command lines themselves

  /** All names on the command lines of one action, in order. */
  function NamesOf(calls: seq<Call>, action: Action): seq<string> {
    if calls == [] then []
    else (if calls[0].action == action then calls[0].names else []) + NamesOf(calls[1..], action)
  }

  lemma NamesAssoc(a: seq<string>, b: seq<string>, c: seq<string>)
    ensures a + (b + c) == a + b + c
  {
  }

  lemma {:induction false} NamesOfBoth(a: seq<Call>, b: seq<Call>, action: Action)
    ensures NamesOf(a + b, action) == NamesOf(a, action) + NamesOf(b, action)
  {
    if a == [] {
      assert a + b == b;
    } else {
      assert (a + b)[1..] == a[1..] + b;
      NamesOfBoth(a[1..], b, action);
      NamesAssoc(if a[0].action == action then a[0].names else [], NamesOf(a[1..], action), NamesOf(b, action));
    }
  }

  lemma {:induction false} NamesOfCalls(action: Action, chunks: seq<seq<string>>, other: Action)
    ensures NamesOf(Calls(action, chunks), other) == if action == other then Concat(chunks) else []
    ensures forall k :: 0 <= k < |Calls(action, chunks)| ==> Calls(action, chunks)[k].action == action
    ensures Calls(action, chunks) == [] <==> chunks == []
  {
    if chunks != [] {
      NamesOfCalls(action, chunks[1..], other);
      assert Calls(action, chunks)[1..] == Calls(action, chunks[1..]);
    }
  }

  /** All deletions come before all additions, and nothing else is asked for. */
  ghost predicate DeletesFirst(calls: seq<Call>) {
    && (forall k :: 0 <= k < |calls| ==> calls[k].action == Deleting || calls[k].action == Adding)
    && (forall i, j :: 0 <= i < j < |calls| && calls[i].action == Adding ==> calls[j].action == Adding)
  }

  ghost predicate Deletes(calls: seq<Call>) {
    exists k :: 0 <= k < |calls| && calls[k].action == Deleting
  }

  lemma HandedOverNotEmpty(list: seq<string>, can: bool)
    requires NoEmpty(list) && list != []
    ensures HandedOver(list, can) != []
  {
    if !can {
      assert list[0] in list;
      DeleteCoversRequest(list, list[0]);
    }
  }

  /** Deleting a non-empty list. */
  lemma DeleteLines(files: seq<FileData>, can: Abilities, list: seq<string>)
    requires NoEmpty(list) && NoEmpty(Reversed(Names(files))) && list != []
    ensures var calls := DeleteCalls(files, can, list);
            && calls != [] && (forall k :: 0 <= k < |calls| ==> calls[k].action == Deleting)
            && NamesOf(calls, Deleting) == HandedOver(list, can.canDeleteNonEmptyFolders)
            && NamesOf(calls, Adding) == []
  {
    var handed := HandedOver(list, can.canDeleteNonEmptyFolders);
    HandedOverNotEmpty(list, can.canDeleteNonEmptyFolders);
    ChunksConcat(handed, 0);
    NamesOfCalls(Deleting, Chunks.Chunks(handed, 0), Deleting);
    NamesOfCalls(Deleting, Chunks.Chunks(handed, 0), Adding);
  }

  /** The first part of AddCalls. */
  ghost function StaleCalls(files: seq<FileData>, can: Abilities, list: seq<string>, update: bool): seq<Call>
    requires NoEmpty(list) && NoEmpty(Reversed(Names(files)))
  {
    PresentNoEmpty(files, list);
    if MustDelete(can, update) && Stale(files, list) != [] then DeleteCalls(files, can, Stale(files, list)) else []
  }

  lemma AddCallsParts(files: seq<FileData>, can: Abilities, list: seq<string>, update: bool)
    requires NoEmpty(list) && NoEmpty(Reversed(Names(files)))
    ensures AddCalls(files, can, list, update)
         == StaleCalls(files, can, list, update) + Calls(Adding, Chunks.Chunks(list, 0))
  {
  }

  lemma StaleLines(files: seq<FileData>, can: Abilities, list: seq<string>, update: bool)
    requires NoEmpty(list) && NoEmpty(Reversed(Names(files)))
    ensures var calls := StaleCalls(files, can, list, update);
            && (forall k :: 0 <= k < |calls| ==> calls[k].action == Deleting) && NamesOf(calls, Adding) == []
            && (calls != [] <==> ((!update && !can.addCanReplace) || (update && !can.addCanUpdate))
                                 && exists x :: x in list && Search(files, x, 0, |files|) >= 0)
  {
    hide DeleteCalls, Search, Stale, Names;
    PresentNoEmpty(files, list);
    StaleIfFound(files, list);
    StaleIsReversed(files, list);
    if Stale(files, list) != [] {
      DeleteLines(files, can, Stale(files, list));
    }
  }

  lemma StaleIsReversed(files: seq<FileData>, list: seq<string>)
    ensures Stale(files, list) == Reversed(Present(files, list))
  {
  }

  /** Whatever the command can do by itself: the added names are the list, every deletion comes first, and there is
      one exactly if a name is found and the command cannot, as asked, replace or update it. */
  lemma AddLines(files: seq<FileData>, can: Abilities, list: seq<string>, update: bool)
    requires NoEmpty(list) && NoEmpty(Reversed(Names(files)))
    ensures var calls := AddCalls(files, can, list, update);
            && NamesOf(calls, Adding) == list && DeletesFirst(calls)
            && (Deletes(calls) <==> ((!update && !can.addCanReplace) || (update && !can.addCanUpdate))
                                    && exists x :: x in list && Search(files, x, 0, |files|) >= 0)
  {
    var adding := Calls(Adding, Chunks.Chunks(list, 0));
    var first := StaleCalls(files, can, list, update);
    AddCallsParts(files, can, list, update);
    ChunksConcat(list, 0);
    NamesOfCalls(Adding, Chunks.Chunks(list, 0), Adding);
    StaleLines(files, can, list, update);
    NamesOfBoth(first, adding, Adding);
    TwoActions(first, adding);
    hide *;
    assert [] + list == list;
  }

  lemma StaleIfFound(files: seq<FileData>, list: seq<string>)
    ensures Stale(files, list) != [] <==> exists x :: x in list && Search(files, x, 0, |files|) >= 0
  {
    hide Search;
    if Stale(files, list) != [] {
      assert Stale(files, list)[0] in Stale(files, list);
      StaleMembers(files, list, Stale(files, list)[0]);
    }
    if x :| x in list && Search(files, x, 0, |files|) >= 0 {
      StaleMembers(files, list, x);
    }
  }

  lemma TwoActions(first: seq<Call>, adding: seq<Call>)
    requires forall k :: 0 <= k < |first| ==> first[k].action == Deleting
    requires forall k :: 0 <= k < |adding| ==> adding[k].action == Adding
    ensures DeletesFirst(first + adding) && (Deletes(first + adding) <==> first != [])
  {
    var calls := first + adding;
    forall k | 0 <= k < |calls| ensures calls[k].action == if k < |first| then Deleting else Adding {
      assert calls[k] == if k < |first| then first[k] else adding[k - |first|];
    }
    if first != [] {
      assert calls[0].action == Deleting;
    }
  }

  /** A whole request adds the requested names, or on update, where the command cannot do that by itself, those the
      archive lacks or has in an older version. */
  lemma RequestLines(files: seq<FileData>, can: Abilities, fileList: seq<string>, baseDir: string, update: bool,
                     mtime: string -> int, x: string)
    requires NoEmpty(fileList) && NoEmpty(Reversed(Names(files)))
    ensures var calls := RequestCalls(files, can, fileList, baseDir, update, mtime);
            && DeletesFirst(calls)
            && (!(update && !can.addCanUpdate) ==> NamesOf(calls, Adding) == fileList)
            && (update && !can.addCanUpdate ==>
                  (x in NamesOf(calls, Adding) <==> x in fileList && NeedsAdding(files, baseDir, mtime, x)))
  {
    var list := ToAdd(files, can, fileList, baseDir, update, mtime);
    NewerNoEmpty(files, baseDir, mtime, fileList);
    if list != [] {
      AddLines(files, can, list, update);
    }
    if update && !can.addCanUpdate {
      ReversedMembers(Newer(files, baseDir, mtime, fileList), x);
      NewerIsFilter(files, baseDir, mtime, fileList, x);
    }
  }

  lemma {:induction false} NamesListed(files: seq<FileData>, x: string)
    ensures x in Names(files) <==> Listed(files, x)
  {
    if files != [] {
      NamesListed(files[1..], x);
      if i :| 0 <= i < |files| && files[i].originalPath == x && i > 0 {
        assert files[1..][i - 1].originalPath == x;
      }
      if i :| 0 <= i < |files[1..]| && files[1..][i].originalPath == x {
        assert files[i + 1].originalPath == x;
      }
    }
  }

  /** Deleting an empty list means deleting everything: every name of the archive is handed over, but for those in
      folders that are, where that matters; and nothing remains. */
  lemma DeleteAll(files: seq<FileData>, can: Abilities, contents: seq<Entry>, disk: string -> int, x: string)
    requires NoEmpty(Reversed(Names(files))) && IndexOfContents(files, contents)
    ensures NoEmpty([])
    ensures x in NamesOf(DeleteCalls(files, can, []), Deleting)
       <==> Listed(files, x) && (can.canDeleteNonEmptyFolders || !InFolder(x, Names(files)))
    ensures After(contents, DeleteCalls(files, can, []), disk) == []
  {
    var all := Reversed(Names(files));
    var handed := HandedOver(all, can.canDeleteNonEmptyFolders);
    ChunksConcat(handed, 0);
    NamesOfCalls(Deleting, Chunks.Chunks(handed, 0), Deleting);
    HandedOverMembers(all, can.canDeleteNonEmptyFolders, x);
    ReversedMembers(Names(files), x);
    NamesListed(files, x);
    FolderAnyOrder(files, x);
    ChunkedDelete(contents, Chunks.Chunks(handed, 0), disk);
    EverythingDropped(files, can, contents);
  }

  lemma FolderAnyOrder(files: seq<FileData>, x: string)
    ensures InFolder(x, Reversed(Names(files))) <==> InFolder(x, Names(files))
  {
    var a, b := Names(files), Reversed(Names(files));
    if i :| 0 <= i < |b| && b[i] != "" && IsFolder(b[i]) && PathInPath(b[i], x) {
      ReversedMembers(a, b[i]);
      var j :| 0 <= j < |a| && a[j] == b[i];
    }
    if i :| 0 <= i < |a| && a[i] != "" && IsFolder(a[i]) && PathInPath(a[i], x) {
      ReversedMembers(a, a[i]);
      var j :| 0 <= j < |b| && b[j] == a[i];
    }
  }

  lemma EverythingDropped(files: seq<FileData>, can: Abilities, contents: seq<Entry>)
    requires NoEmpty(Reversed(Names(files))) && IndexOfContents(files, contents)
    ensures Dropped(contents, HandedOver(Reversed(Names(files)), can.canDeleteNonEmptyFolders)) == []
  {
    var all := Reversed(Names(files));
    hide HandedOver, Dropped;
    forall k | 0 <= k < |contents|
      ensures Takes(HandedOver(all, can.canDeleteNonEmptyFolders), contents[k].name)
    {
      var x := contents[k].name;
      assert Listed(files, x);
      NamesListed(files, x);
      ReversedMembers(Names(files), x);
      HandedOverTakes(all, can.canDeleteNonEmptyFolders, x);
    }
    AllDropped(contents, HandedOver(all, can.canDeleteNonEmptyFolders));
  }

  lemma {:induction false} AllDropped(contents: seq<Entry>, names: seq<string>)
    requires forall k :: 0 <= k < |contents| ==> Takes(names, contents[k].name)
    ensures Dropped(contents, names) == []
  {
    hide Takes;
    if contents != [] {
      assert Takes(names, contents[0].name);
      AllDropped(contents[1..], names);
    }
  }

  // ----- when exactly the added names are replaced

  /** The index lists the names in the archive. */
  ghost predicate IndexOfContents(files: seq<FileData>, contents: seq<Entry>) {
    forall name :: Listed(files, name) <==> exists k :: 0 <= k < |contents| && contents[k].name == name
  }

  lemma {:induction false} NamedBoth(a: seq<Entry>, b: seq<Entry>, x: string)
    ensures Named(a + b, x) == Named(a, x) + Named(b, x)
  {
    if a == [] {
      assert a + b == b;
    } else {
      assert (a + b)[1..] == a[1..] + b;
      NamedBoth(a[1..], b, x);
      EntryAssoc(if a[0].name == x then [a[0]] else [], Named(a[1..], x), Named(b, x));
    }
  }

  lemma {:induction false} NamedAfterDrop(contents: seq<Entry>, names: seq<string>, x: string)
    ensures Named(Dropped(contents, names), x) == if Takes(names, x) then [] else Named(contents, x)
  {
    hide Takes;
    if contents != [] {
      var rest := Dropped(contents[1..], names);
      NamedAfterDrop(contents[1..], names, x);
      if Takes(names, contents[0].name) {
        assert [] + rest == rest;
      } else {
        assert ([contents[0]] + rest)[1..] == rest;
      }
    }
  }

  lemma {:induction false} NamedWithout(contents: seq<Entry>, list: seq<string>, x: string)
    ensures Named(Without(contents, list), x) == if x in list then [] else Named(contents, x)
  {
    if contents != [] {
      var rest := Without(contents[1..], list);
      NamedWithout(contents[1..], list, x);
      if contents[0].name in list {
        assert [] + rest == rest;
      } else {
        assert ([contents[0]] + rest)[1..] == rest;
      }
    }
  }

  lemma {:induction false} NamedIfPresent(contents: seq<Entry>, x: string)
    ensures Named(contents, x) != [] <==> exists k :: 0 <= k < |contents| && contents[k].name == x
  {
    if contents != [] {
      NamedIfPresent(contents[1..], x);
      if k :| 0 <= k < |contents[1..]| && contents[1..][k].name == x {
        assert contents[k + 1].name == x;
      }
      if k :| 0 <= k < |contents| && contents[k].name == x && k > 0 {
        assert contents[1..][k - 1].name == x;
      }
    }
  }

  lemma {:induction false} DropsExactly(contents: seq<Entry>, names: seq<string>, list: seq<string>)
    requires forall k :: 0 <= k < |contents| ==> (Takes(names, contents[k].name) <==> contents[k].name in list)
    ensures Dropped(contents, names) == Without(contents, list)
  {
    hide Takes;
    if contents != [] {
      assert Takes(names, contents[0].name) <==> contents[0].name in list;
      DropsExactly(contents[1..], names, list);
    }
  }

  /** Of the names in the archive, the deletion takes along exactly those that are added. */
  ghost predicate TakesOnlyAdded(files: seq<FileData>, list: seq<string>) {
    forall x :: Listed(files, x) ==> (Takes(Stale(files, list), x) <==> x in list)
  }

  lemma DropsExactlyIff(files: seq<FileData>, contents: seq<Entry>, list: seq<string>)
    requires IndexOfContents(files, contents)
    ensures Dropped(contents, Stale(files, list)) == Without(contents, list) <==> TakesOnlyAdded(files, list)
  {
    hide Takes, Stale, Dropped, Without, Named;
    var stale := Stale(files, list);
    if TakesOnlyAdded(files, list) {
      forall k | 0 <= k < |contents| ensures Takes(stale, contents[k].name) <==> contents[k].name in list {
        assert Listed(files, contents[k].name);
      }
      DropsExactly(contents, stale, list);
    }
    if Dropped(contents, stale) == Without(contents, list) {
      forall x | Listed(files, x) ensures Takes(stale, x) <==> x in list {
        NamedAfterDrop(contents, stale, x);
        NamedWithout(contents, list, x);
        NamedIfPresent(contents, x);
      }
    }
  }

  lemma SameEnd(a: seq<Entry>, b: seq<Entry>, end: seq<Entry>)
    ensures a + end == b + end <==> a == b
  {
    if a + end == b + end {
      assert |a| == |b|;
      assert a == (a + end)[..|a|] && b == (b + end)[..|a|];
    }
  }

  /** Adding replaces exactly the entries of the added names, and keeps all others in place and order, if and only if
      the deletion takes along exactly the added ones. */
  lemma {:induction false} AddReplacesIff(files: seq<FileData>, can: Abilities, contents: seq<Entry>, list: seq<string>,
                                          update: bool, disk: string -> int)
    requires NoEmpty(list) && NoEmpty(Reversed(Names(files))) && MustDelete(can, update)
    requires IndexOfContents(files, contents)
    ensures After(contents, AddCalls(files, can, list, update), disk) == Without(contents, list) + FromDisk(list, disk)
       <==> TakesOnlyAdded(files, list)
  {
    AddEffect(files, can, contents, list, update, disk);
    DropsExactlyIff(files, contents, list);
    hide *;
    SameEnd(Dropped(contents, Stale(files, list)), Without(contents, list), FromDisk(list, disk));
  }

  ghost predicate NoFolders(list: seq<string>) {
    forall x :: x in list ==> x != "" && !IsFolder(x)
  }

  lemma NoFolderTakesMore(files: seq<FileData>, list: seq<string>, x: string)
    requires NoFolders(list)
    ensures Takes(Stale(files, list), x) <==> x in list && Search(files, x, 0, |files|) >= 0
  {
    var stale := Stale(files, list);
    StaleMembers(files, list, x);
    if i :| 0 <= i < |stale| && stale[i] != "" && IsFolder(stale[i]) && PathInPath(stale[i], x) {
      StaleMembers(files, list, stale[i]);
      assert false;
    }
  }

  /** Every listed name among the added ones is found. */
  ghost predicate AddedFound(files: seq<FileData>, list: seq<string>) {
    forall x :: x in list && Listed(files, x) ==> Search(files, x, 0, |files|) >= 0
  }

  /** Without folders among the added names: if and only if the search finds every added name that is listed. */
  lemma {:induction false} AddReplaces(files: seq<FileData>, can: Abilities, contents: seq<Entry>, list: seq<string>,
                                       update: bool, disk: string -> int)
    requires NoEmpty(list) && NoEmpty(Reversed(Names(files))) && MustDelete(can, update)
    requires IndexOfContents(files, contents) && NoFolders(list)
    ensures After(contents, AddCalls(files, can, list, update), disk) == Without(contents, list) + FromDisk(list, disk)
       <==> AddedFound(files, list)
  {
    hide After, AddCalls, Without, FromDisk, Takes, Stale, Search, Listed;
    AddReplacesIff(files, can, contents, list, update, disk);
    forall x ensures Takes(Stale(files, list), x) <==> x in list && Search(files, x, 0, |files|) >= 0 {
      NoFolderTakesMore(files, list, x);
    }
  }

  /** So replacing works for every such list if no relative name is out of place among absolute ones. */
  lemma {:induction false} InPlaceReplaces(files: seq<FileData>, can: Abilities, contents: seq<Entry>,
                                           list: seq<string>, update: bool, disk: string -> int)
    requires NoEmpty(list) && NoEmpty(Reversed(Names(files))) && MustDelete(can, update)
    requires IndexOfContents(files, contents) && NoFolders(list)
    requires IsListing(files) && DistinctNames(files)
    requires forall i, j :: 0 <= i < j < |files| ==> !OutOfPlace(files, i, j)
    ensures After(contents, AddCalls(files, can, list, update), disk) == Without(contents, list) + FromDisk(list, disk)
  {
    ListingIsSearchable(files);
    AddReplaces(files, can, contents, list, update, disk);
    hide After, AddCalls, Without, FromDisk, OutOfPlace, IsListing;
    forall x | x in list && Listed(files, x) ensures Search(files, x, 0, |files|) >= 0 {
      var i :| 0 <= i < |files| && files[i].originalPath == x;
    }
  }

  /** And otherwise some name in the archive is not replaced when it is added again: its stale entry stays. */
  lemma {:induction false} OutOfPlaceLeavesStale(files: seq<FileData>, can: Abilities, contents: seq<Entry>,
                                                 update: bool, disk: string -> int, i: nat, j: nat)
    returns (x: string)
    requires NoEmpty(Reversed(Names(files))) && MustDelete(can, update) && IndexOfContents(files, contents)
    requires IsListing(files) && DistinctNames(files) && i < j < |files| && OutOfPlace(files, i, j)
    ensures Listed(files, x) && NoEmpty([x])
    ensures After(contents, AddCalls(files, can, [x], update), disk) == contents + FromDisk([x], disk)
    ensures After(contents, AddCalls(files, can, [x], update), disk) != Without(contents, [x]) + FromDisk([x], disk)
  {
    x := MissedName(files, i, j);
    NamesNoEmpty(files, x);
    StaleOfMissed(files, x);
    AddEffect(files, can, contents, [x], update, disk);
    DroppedNone(contents);
    NamedWithout(contents, [x], x);
    NamedIfPresent(contents, x);
    SameEnd(contents, Without(contents, [x]), FromDisk([x], disk));
    hide *;
  }

  lemma MissedName(files: seq<FileData>, i: nat, j: nat) returns (x: string)
    requires IsListing(files) && DistinctNames(files) && i < j < |files| && OutOfPlace(files, i, j)
    ensures Listed(files, x) && Search(files, x, 0, |files|) < 0
  {
    ListingIsSearchable(files);
    hide OutOfPlace, IsListing;
    var k :| 0 <= k < |files| && Search(files, files[k].originalPath, 0, |files|) != k;
    x := files[k].originalPath;
  }

  lemma {:induction false} NamesMembers(files: seq<FileData>, x: string)
    requires Listed(files, x)
    ensures x in Names(files)
  {
    var i :| 0 <= i < |files| && files[i].originalPath == x;
    if i > 0 {
      assert files[1..][i - 1].originalPath == x;
      NamesMembers(files[1..], x);
    }
  }

  lemma NamesNoEmpty(files: seq<FileData>, x: string)
    requires NoEmpty(Reversed(Names(files))) && Listed(files, x)
    ensures NoEmpty([x])
  {
    NamesMembers(files, x);
    ReversedMembers(Names(files), x);
    var i :| 0 <= i < |Reversed(Names(files))| && Reversed(Names(files))[i] == x;
  }

  lemma StaleOfMissed(files: seq<FileData>, x: string)
    requires Search(files, x, 0, |files|) < 0
    ensures Stale(files, [x]) == []
  {
    hide Search;
    assert Present(files, [x]) == [];
  }

  // ----- name by name

  lemma {:induction false} NamedFromDisk(names: seq<string>, disk: string -> int, x: string)
    requires NoRepeats(names)
    ensures Named(FromDisk(names, disk), x) == if x in names then [Entry(x, disk(x))] else []
  {
    if names != [] {
      var rest := FromDisk(names[1..], disk);
      NamedFromDisk(names[1..], disk, x);
      assert ([Entry(names[0], disk(names[0]))] + rest)[1..] == rest;
      assert names == [names[0]] + names[1..];
      assert names[0] !in names[1..];
    }
  }

  /** Each added name ends with exactly one entry, the file's, and every other name keeps its entries, if and only if
      the name is new or the deletion takes it along just when it is added. */
  lemma {:induction false} OneEntryEach(files: seq<FileData>, can: Abilities, contents: seq<Entry>, list: seq<string>,
                                        update: bool, disk: string -> int, x: string)
    requires NoEmpty(list) && NoEmpty(Reversed(Names(files))) && MustDelete(can, update)
    requires NoRepeats(list) && IndexOfContents(files, contents)
    ensures Named(After(contents, AddCalls(files, can, list, update), disk), x)
              == (if x in list then [Entry(x, disk(x))] else Named(contents, x))
       <==> (Listed(files, x) ==> (Takes(Stale(files, list), x) <==> x in list))
  {
    hide AddCalls, After, Takes, Stale, Dropped, FromDisk, Named;
    var stale := Stale(files, list);
    AddEffect(files, can, contents, list, update, disk);
    NamedBoth(Dropped(contents, stale), FromDisk(list, disk), x);
    NamedAfterDrop(contents, stale, x);
    NamedFromDisk(list, disk, x);
    NamedIfPresent(contents, x);
    assert Named(contents, x) + [] == Named(contents, x);
  }

  lemma RequestList(files: seq<FileData>, can: Abilities, fileList: seq<string>, baseDir: string, update: bool,
                    mtime: string -> int)
    requires NoEmpty(fileList)
    ensures NoEmpty(ToAdd(files, can, fileList, baseDir, update, mtime))
    ensures NoRepeats(fileList) ==> NoRepeats(ToAdd(files, can, fileList, baseDir, update, mtime))
  {
    NewerNoEmpty(files, baseDir, mtime, fileList);
    if NoRepeats(fileList) {
      NewerNoRepeats(files, baseDir, mtime, fileList);
      ReversedNoRepeats(Newer(files, baseDir, mtime, fileList));
    }
  }

  /** The same for a whole request, adding or updating. */
  lemma {:induction false} RequestEffect(files: seq<FileData>, can: Abilities, contents: seq<Entry>,
                                         fileList: seq<string>, baseDir: string, update: bool, mtime: string -> int,
                                         disk: string -> int, x: string)
    requires NoEmpty(fileList) && NoEmpty(Reversed(Names(files))) && MustDelete(can, update)
    requires NoRepeats(fileList) && IndexOfContents(files, contents)
    ensures var list := ToAdd(files, can, fileList, baseDir, update, mtime);
            (Named(After(contents, RequestCalls(files, can, fileList, baseDir, update, mtime), disk), x)
               == if x in list then [Entry(x, disk(x))] else Named(contents, x))
            <==> (Listed(files, x) ==> (Takes(Stale(files, list), x) <==> x in list))
  {
    var list := ToAdd(files, can, fileList, baseDir, update, mtime);
    RequestList(files, can, fileList, baseDir, update, mtime);
    NewerNoEmpty(files, baseDir, mtime, fileList);
    hide ToAdd, AddCalls, MustDelete, Named, Takes, Search, Listed;
    if list != [] {
      OneEntryEach(files, can, contents, list, update, disk, x);
    } else {
      NothingStale(files, x);
    }
  }

  lemma NothingStale(files: seq<FileData>, x: string)
    ensures !Takes(Stale(files, []), x)
  {
  }

  /** In particular, with an index in the order of the names and no folders added: on adding every listed name, on
      updating every listed name the archive lacks or has in an older version, ends with one entry, the file's; all
      other names keep their entries. */
  lemma {:induction false} RequestReplaces(files: seq<FileData>, can: Abilities, contents: seq<Entry>,
                                           fileList: seq<string>, baseDir: string, update: bool, mtime: string -> int,
                                           disk: string -> int, x: string)
    requires NoEmpty(fileList) && NoEmpty(Reversed(Names(files))) && MustDelete(can, update)
    requires NoRepeats(fileList) && NoFolders(fileList)
    requires SortedByName(files, 0, |files|) && IndexOfContents(files, contents) && (update ==> DistinctNames(files))
    ensures Named(After(contents, RequestCalls(files, can, fileList, baseDir, update, mtime), disk), x)
              == if x in fileList && (update ==> OutOfDate(files, baseDir, mtime, x)) then [Entry(x, disk(x))]
                 else Named(contents, x)
  {
    var list := ToAdd(files, can, fileList, baseDir, update, mtime);
    forall y | y in list ensures y != "" && !IsFolder(y) {
      ToAddMembers(files, can, fileList, baseDir, update, mtime, y);
    }
    ToAddMembers(files, can, fileList, baseDir, update, mtime, x);
    FoundIffListed(files, x);
    hide ToAdd, Named, Takes, Stale, Search, Listed, SortedByName, OutOfDate, After, RequestCalls;
    RequestEffect(files, can, contents, fileList, baseDir, update, mtime, disk, x);
    NoFolderTakesMore(files, list, x);
  }

  // ----- the smallest case

  const MIXED_FILES := [FileData("/a", "a", 0), FileData("/b", "/b", 0)]
  const MIXED_CONTENTS := [Entry("a", 0), Entry("/b", 0)]

  lemma MixedSearchMisses()
    ensures IsListing(MIXED_FILES) && DistinctNames(MIXED_FILES) && NoEmpty(Reversed(Names(MIXED_FILES)))
    ensures Search(MIXED_FILES, "a", 0, |MIXED_FILES|) == -1
  {
    assert !LexLe("a", "/b") && LexLe("/a", "/b");
    assert Search(MIXED_FILES, "a", 0, 2) == Search(MIXED_FILES, "a", 2, 2);
    assert Names(MIXED_FILES) == ["a", "/b"] && Reversed(["a", "/b"]) == ["/b", "a"];
  }

  /** Of a relative and an absolute name the index can lose one: adding "a" again then leaves the stale entry. */
  lemma MixedNamesLeaveStaleEntry(can: Abilities, disk: string -> int)
    requires MustDelete(can, false)
    ensures NoEmpty(Reversed(Names(MIXED_FILES)))
    ensures After(MIXED_CONTENTS, AddCalls(MIXED_FILES, can, ["a"], false), disk)
              == MIXED_CONTENTS + [Entry("a", disk("a"))]
  {
    MixedSearchMisses();
    assert Present(MIXED_FILES, ["a"]) == [] by { hide Search; }
    var chunks := Chunks.Chunks(["a"], 0);
    ChunksConcat(["a"], 0);
    ChunkedAdd(MIXED_CONTENTS, chunks, disk);
    assert FromDisk(["a"], disk) == [Entry("a", disk("a"))];
    hide Calls, After, Search, Chunks.Chunks;
    assert [] + Calls(Adding, chunks) == Calls(Adding, chunks);
  }
}
