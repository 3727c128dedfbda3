/** The index of an archive's entries: finding one, choosing the newer files, and deleting before adding
    (file-data.c, fr-archive.c). */
module Archive {
  import opened Text
  import opened GLists
  import opened Chunks
  import opened PathLists

  datatype FileData = FileData(fullPath: string, originalPath: string, modified: int)

  // ----- find_path_in_file_data_array

  /** Bisection of files[l..r]; -1 when the path is not met. */
  function Search(files: seq<FileData>, path: string, l: nat, r: nat): (p: int)
    requires l <= r <= |files|
    ensures p == -1 || (l <= p < r && files[p].originalPath == path)
    decreases r - l
  {
    if l == r then -1
    else
      var m := l + (r - l) / 2;
      if path == files[m].originalPath then m
      else if LexLe(path, files[m].originalPath) then Search(files, path, l, m)
      else Search(files, path, m + 1, r)
  }

  method FindPath(files: seq<FileData>, path: string) returns (i: int)
    ensures i == Search(files, path, 0, |files|)
  {
    var l, r := 0, |files|;
    while l < r
      invariant 0 <= l <= r <= |files|
      invariant Search(files, path, l, r) == Search(files, path, 0, |files|)
    {
      var p := l + (r - l) / 2;
      if path == files[p].originalPath {
        return p;
      } else if LexLe(path, files[p].originalPath) {
        r := p;
      } else {
        l := p + 1;
      }
    }
    i := -1;
  }

  ghost predicate SortedByName(files: seq<FileData>, l: nat, r: nat)
    requires l <= r <= |files|
  {
    forall i, j :: l <= i < j < r ==> LexLe(files[i].originalPath, files[j].originalPath)
  }

  ghost predicate DistinctNames(files: seq<FileData>) {
    forall i, j :: 0 <= i < j < |files| ==> files[i].originalPath != files[j].originalPath
  }

  ghost predicate Listed(files: seq<FileData>, path: string) {
    exists i :: 0 <= i < |files| && files[i].originalPath == path
  }

  ghost predicate AllFound(files: seq<FileData>, l: nat, r: nat)
    requires l <= r <= |files|
  {
    forall i :: l <= i < r ==> Search(files, files[i].originalPath, l, r) == i
  }

  lemma {:induction false} SearchMeets(files: seq<FileData>, l: nat, r: nat, k: nat)
    requires l <= k < r <= |files| && SortedByName(files, l, r)
    ensures Search(files, files[k].originalPath, l, r) != -1
    decreases r - l
  {
    var m := l + (r - l) / 2;
    LexTotal(files[k].originalPath, files[m].originalPath);
    if files[k].originalPath != files[m].originalPath {
      if k < m {
        SearchMeets(files, l, m, k);
      } else {
        SearchMeets(files, m + 1, r, k);
      }
    }
  }

  /** In an index sorted by name, repeated names allowed, a path is found exactly when it is listed. */
  lemma FoundIffListed(files: seq<FileData>, path: string)
    requires SortedByName(files, 0, |files|)
    ensures Search(files, path, 0, |files|) >= 0 <==> Listed(files, path)
  {
    if k :| 0 <= k < |files| && files[k].originalPath == path {
      SearchMeets(files, 0, |files|, k);
    }
  }

  lemma FoundOnItsSide(files: seq<FileData>, l: nat, r: nat, i: nat)
    requires l <= i < r <= |files| && Search(files, files[i].originalPath, l, r) == i
    ensures var m := l + (r - l) / 2;
            && (i < m ==> Search(files, files[i].originalPath, l, m) == i)
            && (i > m ==> Search(files, files[i].originalPath, m + 1, r) == i)
            && (i <= m ==> LexLe(files[i].originalPath, files[m].originalPath))
            && (i >= m ==> LexLe(files[m].originalPath, files[i].originalPath))
  {
    LexTotal(files[i].originalPath, files[l + (r - l) / 2].originalPath);
  }

  lemma {:induction false} FoundIsSorted(files: seq<FileData>, l: nat, r: nat)
    requires l <= r <= |files| && AllFound(files, l, r)
    ensures SortedByName(files, l, r)
    decreases r - l
  {
    hide Search, LexLe;
    if l < r {
      var m := l + (r - l) / 2;
      forall i | l <= i < r
        ensures i < m ==> Search(files, files[i].originalPath, l, m) == i
        ensures i > m ==> Search(files, files[i].originalPath, m + 1, r) == i
        ensures i <= m ==> LexLe(files[i].originalPath, files[m].originalPath)
        ensures i >= m ==> LexLe(files[m].originalPath, files[i].originalPath)
      {
        FoundOnItsSide(files, l, r, i);
      }
      FoundIsSorted(files, l, m);
      FoundIsSorted(files, m + 1, r);
      forall i, j | l <= i < j < r ensures LexLe(files[i].originalPath, files[j].originalPath) {
        if i <= m <= j {
          LexTrans(files[i].originalPath, files[m].originalPath, files[j].originalPath);
        }
      }
    }
  }

  /** For distinct names, bisection finds every entry in its place if and only if the names are in strcmp's
      order. */
  lemma AllFoundIffSorted(files: seq<FileData>)
    requires DistinctNames(files)
    ensures AllFound(files, 0, |files|) <==> SortedByName(files, 0, |files|)
  {
    if AllFound(files, 0, |files|) {
      FoundIsSorted(files, 0, |files|);
    }
    if SortedByName(files, 0, |files|) {
      forall i | 0 <= i < |files| ensures Search(files, files[i].originalPath, 0, |files|) == i {
        SearchMeets(files, 0, |files|, i);
      }
    }
  }

  // ----- the index is sorted by full path, but searched by original path

  predicate Absolute(name: string) {
    name != "" && name[0] == '/'
  }

  /** What the listing parsers make of a name from the archive. */
  function FullPath(name: string): string {
    if Absolute(name) then name else "/" + name
  }

  /** The index after listing: entries made from names, sorted by file_data_compare_by_path. */
  ghost predicate IsListing(files: seq<FileData>) {
    && (forall i :: 0 <= i < |files| ==> files[i].fullPath == FullPath(files[i].originalPath))
    && (forall i, j :: 0 <= i < j < |files| ==> LexLe(files[i].fullPath, files[j].fullPath))
  }

  /** An entry i before an entry j that strcmp on the names puts the other way round: one name is absolute, the
      other is not, and the relative one's first character is on the wrong side of '/'. */
  predicate OutOfPlace(files: seq<FileData>, i: nat, j: nat)
    requires i < j < |files|
  {
    var a, b := files[i].originalPath, files[j].originalPath;
    || (!Absolute(a) && Absolute(b) && a != "" && a[0] > '/')
    || (Absolute(a) && !Absolute(b) && (b == "" || b[0] < '/'))
  }

  lemma SameKindOrder(a: string, b: string)
    requires Absolute(a) == Absolute(b)
    ensures LexLe(FullPath(a), FullPath(b)) <==> LexLe(a, b)
  {
    SameHeadOrder('/', a, b);
  }

  lemma OutOfPlaceMeans(files: seq<FileData>, i: nat, j: nat)
    requires i < j < |files| && IsListing(files) && files[i].originalPath != files[j].originalPath
    ensures OutOfPlace(files, i, j) <==> !LexLe(files[i].originalPath, files[j].originalPath)
  {
    var a, b := files[i].originalPath, files[j].originalPath;
    if Absolute(a) == Absolute(b) {
      SameKindOrder(a, b);
    }
  }

  lemma InPlaceMeansSorted(files: seq<FileData>)
    requires IsListing(files) && DistinctNames(files)
    ensures SortedByName(files, 0, |files|) <==> forall i, j :: 0 <= i < j < |files| ==> !OutOfPlace(files, i, j)
  {
    forall i, j | 0 <= i < j < |files|
      ensures OutOfPlace(files, i, j) <==> !LexLe(files[i].originalPath, files[j].originalPath)
    {
      OutOfPlaceMeans(files, i, j);
    }
    hide *;
  }

  /** Exactly when an archive's entries can all be found again: no relative name is out of place among absolute
      ones. */
  lemma ListingIsSearchable(files: seq<FileData>)
    requires IsListing(files) && DistinctNames(files)
    ensures AllFound(files, 0, |files|) <==> forall i, j :: 0 <= i < j < |files| ==> !OutOfPlace(files, i, j)
  {
    InPlaceMeansSorted(files);
    AllFoundIffSorted(files);
    hide *;
  }

  /** With names all relative or all absolute, the listing is in the order of the names. */
  lemma UniformListingIsSorted(files: seq<FileData>)
    requires IsListing(files)
    requires forall i, j :: 0 <= i < j < |files| ==> Absolute(files[i].originalPath) == Absolute(files[j].originalPath)
    ensures SortedByName(files, 0, |files|)
  {
    forall i, j | 0 <= i < j < |files| ensures LexLe(files[i].originalPath, files[j].originalPath) {
      SameKindOrder(files[i].originalPath, files[j].originalPath);
    }
  }

  // ----- newer_files_only

  /** The file's entry is missing or older than the file; mtime is the modification time of a path on disk. */
  predicate NeedsAdding(files: seq<FileData>, baseDir: string, mtime: string -> int, name: string) {
    var i := Search(files, name, 0, |files|);
    i < 0 || files[i].modified < mtime(baseDir + "/" + name)
  }

  function Newer(files: seq<FileData>, baseDir: string, mtime: string -> int, list: seq<string>): seq<string> {
    if list == [] then []
    else (if NeedsAdding(files, baseDir, mtime, list[0]) then [list[0]] else [])
         + Newer(files, baseDir, mtime, list[1..])
  }

  method NewerFilesOnly(files: seq<FileData>, fileList: seq<string>, baseDir: string, mtime: string -> int)
    returns (newerFiles: seq<string>)
    ensures newerFiles == Reversed(Newer(files, baseDir, mtime, fileList))
  {
    newerFiles := [];
    var scan := 0;
    assert fileList[0..] == fileList;
    while scan < |fileList|
      invariant 0 <= scan <= |fileList|
      invariant Reversed(Newer(files, baseDir, mtime, fileList))
             == Reversed(Newer(files, baseDir, mtime, fileList[scan..])) + newerFiles
    {
      var filename := fileList[scan];
      assert fileList[scan..][1..] == fileList[scan + 1..];
      PrependNext(Newer(files, baseDir, mtime, fileList[scan + 1..]), filename, newerFiles);
      scan := scan + 1;
      var i := FindPath(files, filename);
      if i < 0 {
        newerFiles := [filename] + newerFiles;
        continue;
      }
      if files[i].modified >= mtime(baseDir + "/" + filename) {
        continue;
      }
      newerFiles := [filename] + newerFiles;
    }
  }

  /** Prepending builds a list back to front. */
  lemma PrependNext(rest: seq<string>, name: string, built: seq<string>)
    ensures Reversed([name] + rest) + built == Reversed(rest) + ([name] + built)
    ensures [] + rest == rest
  {
    assert ([name] + rest)[1..] == rest;
  }

  lemma {:induction false} NewerIsFilter(files: seq<FileData>, baseDir: string, mtime: string -> int,
                                         list: seq<string>, x: string)
    ensures x in Newer(files, baseDir, mtime, list) <==> x in list && NeedsAdding(files, baseDir, mtime, x)
  {
    if list != [] {
      assert list == [list[0]] + list[1..];
      NewerIsFilter(files, baseDir, mtime, list[1..], x);
    }
  }

  // ----- fr_archive_add and delete_from_archive

  function Names(files: seq<FileData>): seq<string> {
    if files == [] then [] else [files[0].originalPath] + Names(files[1..])
  }

  /** The names the search finds in the archive. */
  function Present(files: seq<FileData>, list: seq<string>): seq<string> {
    if list == [] then []
    else (if Search(files, list[0], 0, |files|) >= 0 then [list[0]] else []) + Present(files, list[1..])
  }

  lemma {:induction false} PresentMembers(files: seq<FileData>, list: seq<string>, x: string)
    ensures x in Present(files, list) <==> x in list && Search(files, x, 0, |files|) >= 0
  {
    if list != [] {
      assert list == [list[0]] + list[1..];
      PresentMembers(files, list[1..], x);
    }
  }

  lemma PresentNoEmpty(files: seq<FileData>, list: seq<string>)
    requires NoEmpty(list)
    ensures NoEmpty(Reversed(Present(files, list)))
  {
    var p := Present(files, list);
    forall i | 0 <= i < |p| ensures p[i] != "" {
      PresentMembers(files, list, p[i]);
    }
    ReversedNoEmpty(p);
  }

  lemma NewerNoEmpty(files: seq<FileData>, baseDir: string, mtime: string -> int, list: seq<string>)
    requires NoEmpty(list)
    ensures NoEmpty(Reversed(Newer(files, baseDir, mtime, list)))
  {
    var p := Newer(files, baseDir, mtime, list);
    forall i | 0 <= i < |p| ensures p[i] != "" {
      NewerIsFilter(files, baseDir, mtime, list, p[i]);
    }
    ReversedNoEmpty(p);
  }

  /** A list as g_list_append builds it. */
  method MakeList(names: seq<string>) returns (list: Node?, ghost nodes: seq<Node>)
    ensures fresh(nodes) && Linked(nodes) && list == At(nodes, 0) && Data(nodes) == names
  {
    hide Linked, Data, Chain, Distinct;
    EmptyLinked();
    list, nodes := null, [];
    var last: Node? := null;
    var k := 0;
    while k < |names|
      invariant 0 <= k <= |names| && |nodes| == k && fresh(nodes) && Linked(nodes)
      invariant list == At(nodes, 0) && last == At(nodes, k - 1)
      invariant Data(nodes) == names[..k]
    {
      var node := AppendNode(names[k], last, nodes);
      DataSnoc(nodes, node);
      if last == null {
        list := node;
      }
      nodes, last, k := nodes + [node], node, k + 1;
    }
  }

  datatype Abilities = Abilities(addCanUpdate: bool, addCanReplace: bool, canDeleteNonEmptyFolders: bool)

  /** The files fr_archive_add adds. */
  function ToAdd(files: seq<FileData>, can: Abilities, fileList: seq<string>, baseDir: string, update: bool,
                 mtime: string -> int): seq<string>
  {
    if update && !can.addCanUpdate then Reversed(Newer(files, baseDir, mtime, fileList)) else fileList
  }

  predicate MustDelete(can: Abilities, update: bool) {
    (!update && !can.addCanReplace) || (update && !can.addCanUpdate)
  }

  ghost function DeleteCalls(files: seq<FileData>, can: Abilities, fileList: seq<string>): seq<Call>
    requires NoEmpty(fileList) && NoEmpty(Reversed(Names(files)))
  {
    var list := if fileList == [] then Reversed(Names(files)) else fileList;
    Calls(Deleting, Chunks.Chunks(HandedOver(list, can.canDeleteNonEmptyFolders), 0))
  }

  /** The command lines for adding `list`: those that delete what is there already come first. */
  ghost function AddCalls(files: seq<FileData>, can: Abilities, list: seq<string>, update: bool): seq<Call>
    requires NoEmpty(list) && NoEmpty(Reversed(Names(files)))
  {
    PresentNoEmpty(files, list);
    var stale := Reversed(Present(files, list));
    (if MustDelete(can, update) && stale != [] then DeleteCalls(files, can, stale) else [])
    + Calls(Adding, Chunks.Chunks(list, 0))
  }

  ghost function RequestCalls(files: seq<FileData>, can: Abilities, fileList: seq<string>, baseDir: string,
                              update: bool, mtime: string -> int): seq<Call>
    requires NoEmpty(fileList) && NoEmpty(Reversed(Names(files)))
  {
    NewerNoEmpty(files, baseDir, mtime, fileList);
    var list := ToAdd(files, can, fileList, baseDir, update, mtime);
    if list == [] then [] else AddCalls(files, can, list, update)
  }

  class FrArchive {
    const files: seq<FileData>
    const can: Abilities
    const readOnly: bool
    const command: Command

    constructor (files: seq<FileData>, can: Abilities, readOnly: bool, command: Command)
      ensures this.files == files && this.can == can && this.readOnly == readOnly && this.command == command
    {
      this.files, this.can, this.readOnly, this.command := files, can, readOnly, command;
    }

    /** An empty list means every file of the archive. */
    method DeleteFromArchive(fileList: seq<string>)
      requires NoEmpty(fileList) && NoEmpty(Reversed(Names(files)))
      modifies command
      ensures command.calls == old(command.calls) + DeleteCalls(files, can, fileList)
    {
      hide Linked, Data, NoEmpty, Chunks.Chunks, HandedOver, Calls;
      var list := fileList;
      if fileList == [] {
        list := AllNames();
      }
      var toDelete := ListToDelete(list, can.canDeleteNonEmptyFolders);
      var scan;
      ghost var nodes;
      scan, nodes := MakeList(toDelete);
      RunInChunks(Deleting, scan, 0, command, nodes);
    }

    method AllNames() returns (list: seq<string>)
      ensures list == Reversed(Names(files))
    {
      list := [];
      var i := 0;
      assert files[0..] == files;
      while i < |files|
        invariant 0 <= i <= |files|
        invariant Reversed(Names(files)) == Reversed(Names(files[i..])) + list
      {
        assert files[i..][1..] == files[i + 1..];
        PrependNext(Names(files[i + 1..]), files[i].originalPath, list);
        list := [files[i].originalPath] + list;
        i := i + 1;
      }
    }

    method DeletionList(newFileList: seq<string>) returns (delList: seq<string>)
      ensures delList == Reversed(Present(files, newFileList))
    {
      delList := [];
      var scan := 0;
      assert newFileList[0..] == newFileList;
      while scan < |newFileList|
        invariant 0 <= scan <= |newFileList|
        invariant Reversed(Present(files, newFileList)) == Reversed(Present(files, newFileList[scan..])) + delList
      {
        assert newFileList[scan..][1..] == newFileList[scan + 1..];
        PrependNext(Present(files, newFileList[scan + 1..]), newFileList[scan], delList);
        var i := FindPath(files, newFileList[scan]);
        if i >= 0 {
          delList := [newFileList[scan]] + delList;
        }
        scan := scan + 1;
      }
    }

    method AddInChunks(newFileList: seq<string>)
      modifies command
      ensures command.calls == old(command.calls) + Calls(Adding, Chunks.Chunks(newFileList, 0))
    {
      hide Linked, Data, Chunks.Chunks, Calls, AllData;
      var list, chunks;
      ghost var nodes, parts;
      list, nodes := MakeList(newFileList);
      LinkedIsChain(nodes);
      chunks, parts := SplitInChunks(list, nodes);
      ghost var cut := AllData(parts);
      var scan := 0;
      assert cut[0..] == cut;
      while scan < |chunks|
        invariant 0 <= scan <= |chunks|
        invariant forall i :: 0 <= i < |parts| ==> parts[i] != [] && Linked(parts[i]) && chunks[i] == parts[i][0]
        invariant command.calls + Calls(Adding, cut[scan..]) == old(command.calls) + Calls(Adding, cut)
      {
        LinkedIsChain(parts[scan]);
        CallsStep(command.calls, cut, scan);
        command.Run(Adding, chunks[scan], parts[scan]);
        scan := scan + 1;
      }
      CallsDone(command.calls, cut);
    }

    /** The part of fr_archive_add that gives the command lines. */
    method DeleteAndAdd(newFileList: seq<string>, update: bool)
      requires NoEmpty(newFileList) && NoEmpty(Reversed(Names(files)))
      modifies command
      ensures command.calls == old(command.calls) + AddCalls(files, can, newFileList, update)
    {
      hide NoEmpty, Chunks.Chunks, Calls, Present, Names, Reversed, DeleteCalls;
      PresentNoEmpty(files, newFileList);
      ghost var first := [];
      if (!update && !can.addCanReplace) || (update && !can.addCanUpdate) {
        var delList := DeletionList(newFileList);
        if delList != [] {
          first := DeleteCalls(files, can, delList);
          DeleteFromArchive(delList);
        }
      }
      CallsAssoc(old(command.calls), first, Calls(Adding, Chunks.Chunks(newFileList, 0)));
      AddInChunks(newFileList);
    }

    /** fr_archive_add, from the point where the destination is in front of the names. */
    method Add(fileList: seq<string>, baseDir: string, update: bool, mtime: string -> int)
      requires NoEmpty(fileList) && NoEmpty(Reversed(Names(files)))
      modifies command
      ensures command.calls == old(command.calls)
                 + if readOnly then [] else RequestCalls(files, can, fileList, baseDir, update, mtime)
    {
      hide NoEmpty, Chunks.Chunks, HandedOver, Calls, Newer, Present, Names, Reversed, DeleteCalls;
      if fileList == [] {
        NothingNewer(files, baseDir, mtime);
        return;
      }
      if readOnly {
        return;
      }
      var newFileList := fileList;
      if update && !can.addCanUpdate {
        newFileList := NewerFilesOnly(files, newFileList, baseDir, mtime);
      }
      NewerNoEmpty(files, baseDir, mtime, fileList);
      if newFileList == [] {
        return;
      }
      hide AddCalls;
      DeleteAndAdd(newFileList, update);
    }
  }

  lemma CallsAssoc(a: seq<Call>, b: seq<Call>, c: seq<Call>)
    ensures a + (b + c) == a + b + c && a + [] == a
  {
  }

  lemma NothingNewer(files: seq<FileData>, baseDir: string, mtime: string -> int)
    ensures Reversed(Newer(files, baseDir, mtime, [])) == []
  {
  }

  lemma CallsStep(calls: seq<Call>, chunks: seq<seq<string>>, i: nat)
    requires i < |chunks|
    ensures calls + Calls(Adding, chunks[i..]) == calls + [Call(Adding, chunks[i])] + Calls(Adding, chunks[i + 1..])
  {
    assert chunks[i..][1..] == chunks[i + 1..];
    assert calls + ([Call(Adding, chunks[i])] + Calls(Adding, chunks[i + 1..]))
        == calls + [Call(Adding, chunks[i])] + Calls(Adding, chunks[i + 1..]);
  }

  lemma CallsDone(calls: seq<Call>, chunks: seq<seq<string>>)
    ensures calls + Calls(Adding, chunks[|chunks|..]) == calls
  {
  }

  // ----- the names added

  predicate NoRepeats(list: seq<string>) {
    forall i, j :: 0 <= i < j < |list| ==> list[i] != list[j]
  }

  lemma {:induction false} ReversedNoRepeats(list: seq<string>)
    requires NoRepeats(list)
    ensures NoRepeats(Reversed(list))
  {
    if list != [] {
      ReversedNoRepeats(list[1..]);
      ReversedMembers(list[1..], list[0]);
      assert list[0] !in list[1..];
    }
  }

  lemma {:induction false} NewerNoRepeats(files: seq<FileData>, baseDir: string, mtime: string -> int,
                                          list: seq<string>)
    requires NoRepeats(list)
    ensures NoRepeats(Newer(files, baseDir, mtime, list))
  {
    if list != [] {
      NewerNoRepeats(files, baseDir, mtime, list[1..]);
      NewerIsFilter(files, baseDir, mtime, list[1..], list[0]);
      assert list[0] !in list[1..];
    }
  }

  /** The file's entry would be out of date: none has the name, or the file is newer. */
  ghost predicate OutOfDate(files: seq<FileData>, baseDir: string, mtime: string -> int, x: string) {
    forall i :: 0 <= i < |files| && files[i].originalPath == x ==> files[i].modified < mtime(baseDir + "/" + x)
  }

  lemma ToAddMembers(files: seq<FileData>, can: Abilities, fileList: seq<string>, baseDir: string, update: bool,
                     mtime: string -> int, x: string)
    requires MustDelete(can, update) && SortedByName(files, 0, |files|) && (update ==> DistinctNames(files))
    ensures x in ToAdd(files, can, fileList, baseDir, update, mtime) <==>
              x in fileList && (update ==> OutOfDate(files, baseDir, mtime, x))
  {
    if update {
      ReversedMembers(Newer(files, baseDir, mtime, fileList), x);
      NewerIsFilter(files, baseDir, mtime, fileList, x);
      FoundIffListed(files, x);
    }
  }
}
