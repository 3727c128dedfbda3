/** Which paths lie inside which (path_in_path), and the two lists pruned with it: what to extract and what to
    delete (file-utils.c, fr-archive.c). */
module PathLists {
  import opened Text
  import opened GLists

  /** path_in_path, for the non-empty folder names it can be asked about. */
  predicate PathInPath(dirname: string, filename: string)
    requires dirname != ""
  {
    var d, f := |dirname|, |filename|;
    if d == f + 1 && dirname[d - 1] == '/' then false
    else if f == d + 1 && filename[f - 1] == '/' then false
    else
      var separator := if dirname[d - 1] == '/' then d - 1 else d;
      f > d && dirname <= filename && filename[separator] == '/'
  }

  function WithSlash(dirname: string): string
    requires dirname != ""
  {
    if dirname[|dirname| - 1] == '/' then dirname else dirname + "/"
  }

  /** A path is inside a folder when something follows the folder's name and a slash: something other than
      one more slash, if the name already ends in one. */
  lemma InsideMeans(dirname: string, filename: string)
    requires dirname != ""
    ensures PathInPath(dirname, filename) <==>
              exists rest :: filename == WithSlash(dirname) + rest && rest != ""
                             && (dirname == WithSlash(dirname) ==> rest != "/")
  {
    var s := WithSlash(dirname);
    if PathInPath(dirname, filename) {
      assert |s| <= |filename| && s == filename[..|s|];
      assert filename == s + filename[|s|..];
    }
  }

  lemma InsideIsLonger(dirname: string, filename: string)
    requires dirname != "" && PathInPath(dirname, filename)
    ensures dirname <= filename && |dirname| < |filename|
  {
  }

  lemma InsideIsTransitive(a: string, b: string, c: string)
    requires a != "" && b != "" && PathInPath(a, b) && PathInPath(b, c)
    ensures PathInPath(a, c)
  {
    assert a <= c && |c| >= |a| + 2;
  }

  ghost predicate NoEmpty(paths: seq<string>) {
    forall i :: 0 <= i < |paths| ==> paths[i] != ""
  }

  /** The path lies inside some entry of the list. */
  ghost predicate Covered(path: string, list: seq<string>) {
    exists i :: 0 <= i < |list| && list[i] != "" && PathInPath(list[i], path)
  }

  /** Every path inside an entry is inside an entry that is not itself inside one: go outwards. */
  lemma {:induction false} OutermostCover(path: string, list: seq<string>) returns (i: nat)
    requires NoEmpty(list) && Covered(path, list)
    ensures i < |list| && PathInPath(list[i], path) && !Covered(list[i], list)
    decreases |path|
  {
    i :| 0 <= i < |list| && list[i] != "" && PathInPath(list[i], path);
    if Covered(list[i], list) {
      InsideIsLonger(list[i], path);
      var j := OutermostCover(list[i], list);
      InsideIsTransitive(list[j], list[i], path);
      i := j;
    }
  }

  // ----- extracting: covered paths are removed from a sorted list

  function RemoveContained(dirname: string, list: seq<string>): (r: seq<string>)
    requires dirname != ""
    ensures |r| <= |list|
  {
    if list == [] || !(dirname <= list[0]) then list
    else if PathInPath(dirname, list[0]) then RemoveContained(dirname, list[1..])
    else [list[0]] + RemoveContained(dirname, list[1..])
  }

  ghost function Prune(list: seq<string>): seq<string>
    requires NoEmpty(list)
    decreases |list|
  {
    if list == [] then []
    else
      RemoveContainedNoEmpty(list[0], list[1..]);
      [list[0]] + Prune(RemoveContained(list[0], list[1..]))
  }

  lemma {:induction false} RemoveContainedNoEmpty(dirname: string, list: seq<string>)
    requires dirname != "" && NoEmpty(list)
    ensures NoEmpty(RemoveContained(dirname, list))
  {
    if list != [] {
      RemoveContainedNoEmpty(dirname, list[1..]);
    }
  }

  ghost predicate Sorted(list: seq<string>) {
    forall i, j :: 0 <= i < j < |list| ==> LexLe(list[i], list[j])
  }

  /** The entries of a list that are not inside an entry of `all`. */
  ghost function Uncovered(list: seq<string>, all: seq<string>): seq<string> {
    if list == [] then []
    else (if Covered(list[0], all) then [] else [list[0]]) + Uncovered(list[1..], all)
  }

  function Outside(dirname: string, list: seq<string>): seq<string>
    requires dirname != ""
  {
    if list == [] then []
    else (if PathInPath(dirname, list[0]) then [] else [list[0]]) + Outside(dirname, list[1..])
  }

  lemma {:induction false} OutsideMembers(dirname: string, list: seq<string>, x: string)
    requires dirname != ""
    ensures x in Outside(dirname, list) <==> x in list && !PathInPath(dirname, x)
  {
    if list != [] {
      assert list == [list[0]] + list[1..];
      OutsideMembers(dirname, list[1..], x);
    }
  }

  lemma {:induction false} OutsideSorted(dirname: string, list: seq<string>)
    requires dirname != "" && Sorted(list) && NoEmpty(list)
    ensures Sorted(Outside(dirname, list)) && NoEmpty(Outside(dirname, list))
  {
    if list != [] {
      var rest := Outside(dirname, list[1..]);
      OutsideSorted(dirname, list[1..]);
      forall i | 0 <= i < |rest| ensures LexLe(list[0], rest[i]) {
        OutsideMembers(dirname, list[1..], rest[i]);
        assert rest[i] in list[1..];
      }
    }
  }

  /** No path that does not start with the folder's name is followed by one that does: nothing after the break
      lies inside the folder. */
  lemma {:induction false} NothingBehindBreak(dirname: string, list: seq<string>)
    requires dirname != "" && Sorted(list) && list != [] && LexLe(dirname, list[0]) && !(dirname <= list[0])
    ensures Outside(dirname, list) == list
  {
    if |list| > 1 {
      LexTrans(dirname, list[0], list[1]);
      if dirname <= list[1] {
        PrefixesAreContiguous(dirname, list[0], list[1]);
      }
      NothingBehindBreak(dirname, list[1..]);
    }
    assert list == [list[0]] + list[1..];
  }

  /** The early break loses nothing. */
  lemma {:induction false} RemoveIsFilter(dirname: string, list: seq<string>)
    requires dirname != "" && Sorted(list) && forall i :: 0 <= i < |list| ==> LexLe(dirname, list[i])
    ensures RemoveContained(dirname, list) == Outside(dirname, list)
  {
    if list != [] {
      if dirname <= list[0] {
        RemoveIsFilter(dirname, list[1..]);
      } else {
        NothingBehindBreak(dirname, list);
      }
    }
  }

  /** The first of a sorted list lies inside none of the others. */
  lemma FirstIsUncovered(list: seq<string>)
    requires Sorted(list) && NoEmpty(list) && list != []
    ensures !Covered(list[0], list)
  {
    forall i | 0 <= i < |list| ensures !PathInPath(list[i], list[0]) {
      if PathInPath(list[i], list[0]) {
        PrefixLe(list[i], list[0]);
        LexTotal(list[i], list[0]);
      }
    }
  }

  /** Removing what lies inside the first entry takes away no cover that is needed. */
  lemma CoverSurvives(list: seq<string>, x: string)
    requires NoEmpty(list) && list != []
    ensures Covered(x, list) <==> PathInPath(list[0], x) || Covered(x, Outside(list[0], list[1..]))
  {
    var h, t := list[0], list[1..];
    var left := Outside(h, t);
    if i :| 0 <= i < |list| && PathInPath(list[i], x) && !PathInPath(h, x) {
      assert i > 0 && list[i] == t[i - 1];
      if PathInPath(h, list[i]) {
        InsideIsTransitive(h, list[i], x);
      }
      OutsideMembers(h, t, list[i]);
      var j :| 0 <= j < |left| && left[j] == list[i];
    }
    if j :| 0 <= j < |left| && left[j] != "" && PathInPath(left[j], x) {
      OutsideMembers(h, t, left[j]);
      var i :| 0 <= i < |t| && t[i] == left[j];
      assert list[i + 1] == left[j];
    }
  }

  lemma {:induction false} UncoveredAfterRemoval(list: seq<string>, tail: seq<string>)
    requires NoEmpty(list) && list != []
    ensures Uncovered(tail, list) == Uncovered(Outside(list[0], tail), Outside(list[0], list[1..]))
  {
    if tail != [] {
      CoverSurvives(list, tail[0]);
      UncoveredAfterRemoval(list, tail[1..]);
      var rest := Outside(list[0], tail[1..]);
      if PathInPath(list[0], tail[0]) {
        assert Outside(list[0], tail) == [] + rest == rest;
        assert Covered(tail[0], list);
      } else {
        assert Outside(list[0], tail) == [tail[0]] + rest && ([tail[0]] + rest)[1..] == rest;
      }
    }
  }

  /** On a sorted list the removal loop keeps exactly the entries that lie inside no other entry, in order. */
  lemma {:induction false} PruneIsExact(list: seq<string>)
    requires Sorted(list) && NoEmpty(list)
    ensures Prune(list) == Uncovered(list, list)
    decreases |list|
  {
    if list != [] {
      var h, t := list[0], list[1..];
      assert forall i :: 0 <= i < |t| ==> LexLe(h, t[i]);
      RemoveIsFilter(h, t);
      OutsideSorted(h, t);
      PruneIsExact(Outside(h, t));
      FirstIsUncovered(list);
      UncoveredAfterRemoval(list, t);
    }
  }

  lemma {:induction false} UncoveredMembers(list: seq<string>, all: seq<string>, x: string)
    ensures x in Uncovered(list, all) <==> x in list && !Covered(x, all)
  {
    if list != [] {
      assert list == [list[0]] + list[1..];
      UncoveredMembers(list[1..], all, x);
    }
  }

  /** Whatever is requested is extracted: it is kept, or lies inside something that is kept. */
  lemma PruneCoversAll(list: seq<string>, x: string)
    requires Sorted(list) && NoEmpty(list) && x in list
    ensures x in Prune(list) || Covered(x, Prune(list))
  {
    PruneIsExact(list);
    UncoveredMembers(list, list, x);
    if Covered(x, list) {
      var i := OutermostCover(x, list);
      UncoveredMembers(list, list, list[i]);
      var j :| 0 <= j < |Prune(list)| && Prune(list)[j] == list[i];
    }
  }

  ghost predicate Within(nodes: seq<Node>, owned: set<Node>) {
    forall j :: 0 <= j < |nodes| ==> nodes[j] in owned
  }

  /** remove_files_contained_in_this_dir, from the node behind the folder's to the first path without its prefix. */
  method RemoveFilesContainedInThisDir(fileList: Node?, dirPointer: Node, ghost nodes: seq<Node>, ghost k: nat,
                                       ghost owned: set<Node>)
    returns (list: Node?, ghost kept: seq<Node>)
    requires Linked(nodes) && k < |nodes| && fileList == At(nodes, 0) && dirPointer == nodes[k]
    requires NoEmpty(Data(nodes)) && Within(nodes, owned)
    modifies owned
    ensures Linked(kept) && list == At(kept, 0) && k < |kept| && kept[k] == dirPointer
    ensures Within(kept, owned)
    ensures Data(kept) == Data(nodes)[..k + 1] + RemoveContained(dirPointer.data, Data(nodes)[k + 1..])
  {
    hide Data, Linked, NoEmpty, Without, RemoveContained, PathInPath;
    var dirname := dirPointer.data;
    FolderNotEmpty(nodes, k);
    ghost var goal := Data(nodes)[..k + 1] + RemoveContained(dirname, Data(nodes)[k + 1..]);
    list, kept := fileList, nodes;
    NextOf(kept, k);
    var scan := dirPointer.next;
    ghost var i := k + 1;
    while scan != null
      invariant k < i <= |kept| && scan == At(kept, i) && Linked(kept) && list == At(kept, 0) && kept[k] == dirPointer
      invariant Within(kept, owned)
      invariant Data(kept)[..i] + RemoveContained(dirname, Data(kept)[i..]) == goal
      decreases |kept| - i
    {
      RemoveNext(dirname, Data(kept), i);
      NextOf(kept, i);
      if !(dirname <= scan.data) {
        break;
      }
      var next := scan.next;
      if PathInPath(dirname, scan.data) {
        list := GListRemoveLink(list, scan, kept, i);
        WithoutNodes(kept, k, i, owned);
        kept := Without(kept, i);
      } else {
        i := i + 1;
      }
      scan := next;
    }
    RemoveEnd(dirname, Data(kept), i);
  }

  lemma NextOf(nodes: seq<Node>, i: nat)
    requires Linked(nodes) && i < |nodes|
    ensures nodes[i].next == At(nodes, i + 1) && Data(nodes)[i] == nodes[i].data
  {
  }

  lemma FolderNotEmpty(nodes: seq<Node>, k: nat)
    requires k < |nodes| && NoEmpty(Data(nodes))
    ensures nodes[k].data != ""
  {
    assert Data(nodes)[k] == nodes[k].data;
  }

  lemma WithoutNodes(nodes: seq<Node>, k: nat, i: nat, owned: set<Node>)
    requires k < i < |nodes| && Within(nodes, owned)
    ensures Within(Without(nodes, i), owned)
    ensures var w := Without(nodes, i);
            w[k] == nodes[k] && At(w, i) == At(nodes, i + 1) && |w| == |nodes| - 1
            && Data(w)[..i] == Data(nodes)[..i] && Data(w)[i..] == Data(nodes)[i + 1..]
  {
  }

  /** One round of the removal loop on the names. */
  lemma RemoveNext(dirname: string, list: seq<string>, i: nat)
    requires dirname != "" && i < |list|
    ensures var left := list[..i] + RemoveContained(dirname, list[i..]);
            && (!(dirname <= list[i]) ==> left == list)
            && (dirname <= list[i] && PathInPath(dirname, list[i]) ==>
                  left == list[..i] + RemoveContained(dirname, list[i + 1..]))
            && (dirname <= list[i] && !PathInPath(dirname, list[i]) ==>
                  left == list[..i + 1] + RemoveContained(dirname, list[i + 1..]))
  {
    assert list[i..][1..] == list[i + 1..] && list[..i] + list[i..] == list;
    assert list[..i + 1] == list[..i] + [list[i]];
    var r := RemoveContained(dirname, list[i + 1..]);
    assert list[..i] + ([list[i]] + r) == list[..i + 1] + r;
  }

  lemma RemoveEnd(dirname: string, list: seq<string>, i: nat)
    requires dirname != "" && i <= |list|
    ensures i == |list| || !(dirname <= list[i]) ==> list[..i] + RemoveContained(dirname, list[i..]) == list
  {
    assert list[..i] + list[i..] == list;
  }

  /** The loop of fr_archive_extract_to_local over the sorted copy. */
  method RemoveContainedFiles(filtered: Node?, ghost nodes: seq<Node>, ghost owned: set<Node>)
    returns (list: Node?, ghost kept: seq<Node>)
    requires Linked(nodes) && filtered == At(nodes, 0) && NoEmpty(Data(nodes)) && Within(nodes, owned)
    modifies owned
    ensures Linked(kept) && list == At(kept, 0)
    ensures Data(kept) == Prune(Data(nodes))
  {
    hide Data, Linked, RemoveContained, NoEmpty, Prune;
    list, kept := filtered, nodes;
    var scan := filtered;
    ghost var k := 0;
    PruneStart(Data(nodes));
    while scan != null
      invariant k <= |kept| && scan == At(kept, k) && Linked(kept) && list == At(kept, 0)
      invariant Within(kept, owned)
      invariant NoEmpty(Data(kept)) && NoEmpty(Data(kept)[k..])
      invariant Data(kept)[..k] + Prune(Data(kept)[k..]) == Prune(Data(nodes))
      decreases |kept| - k
    {
      PruneNext(Data(kept), k);
      list, kept := RemoveFilesContainedInThisDir(list, scan, kept, k, owned);
      NextOf(kept, k);
      scan := scan.next;
      k := k + 1;
    }
    PruneEnd(Data(kept), k);
  }

  lemma PruneStart(list: seq<string>)
    requires NoEmpty(list)
    ensures NoEmpty(list[0..]) && list[..0] + Prune(list[0..]) == Prune(list)
  {
    assert list[0..] == list;
  }

  lemma PruneNext(list: seq<string>, k: nat)
    requires NoEmpty(list) && k < |list|
    ensures NoEmpty(list[k..]) && list[k] != ""
    ensures var next := list[..k + 1] + RemoveContained(list[k], list[k + 1..]);
            && NoEmpty(next) && NoEmpty(next[k + 1..])
            && next[..k + 1] + Prune(next[k + 1..]) == list[..k] + Prune(list[k..])
  {
    var h, r := list[k], RemoveContained(list[k], list[k + 1..]);
    RemoveContainedNoEmpty(h, list[k + 1..]);
    var next := list[..k + 1] + r;
    assert list[k..][1..] == list[k + 1..] && next[k + 1..] == r && next[..k + 1] == list[..k] + [h];
    assert list[..k] + ([h] + Prune(r)) == list[..k] + [h] + Prune(r);
  }

  lemma PruneEnd(list: seq<string>, k: nat)
    requires NoEmpty(list) && k == |list|
    ensures NoEmpty(list[k..]) && list[..k] + Prune(list[k..]) == list
  {
  }

  // ----- deleting: a command that cannot delete non-empty folders gets no path inside a requested folder

  predicate IsFolder(path: string)
    requires path != ""
  {
    path[|path| - 1] == '/'
  }

  function Reversed(list: seq<string>): seq<string> {
    if list == [] then [] else Reversed(list[1..]) + [list[0]]
  }

  function Folders(list: seq<string>): (r: seq<string>)
    requires NoEmpty(list)
    ensures NoEmpty(r)
  {
    if list == [] then [] else (if IsFolder(list[0]) then [list[0]] else []) + Folders(list[1..])
  }

  /** What delete_from_archive hands to the command; a list built by prepending comes out reversed. */
  ghost function HandedOver(list: seq<string>, canDeleteNonEmptyFolders: bool): seq<string>
    requires NoEmpty(list)
  {
    if canDeleteNonEmptyFolders || Folders(list) == [] then list else Reversed(Uncovered(list, Reversed(Folders(list))))
  }

  method FileIsInSubfolderOf(filename: string, folderList: seq<string>) returns (inside: bool)
    requires NoEmpty(folderList)
    ensures inside <==> Covered(filename, folderList)
  {
    var scan := 0;
    while scan < |folderList|
      invariant 0 <= scan <= |folderList|
      invariant forall i :: 0 <= i < scan ==> !PathInPath(folderList[i], filename)
    {
      if PathInPath(folderList[scan], filename) {
        return true;
      }
      scan := scan + 1;
    }
    inside := false;
  }

  /** The list logic at the head of delete_from_archive. */
  method ListToDelete(fileList: seq<string>, canDeleteNonEmptyFolders: bool) returns (handed: seq<string>)
    requires NoEmpty(fileList)
    ensures handed == HandedOver(fileList, canDeleteNonEmptyFolders)
  {
    if !canDeleteNonEmptyFolders {
      var foldersToRemove: seq<string> := [];
      var scan := 0;
      FoldersStart(fileList);
      while scan < |fileList|
        invariant 0 <= scan <= |fileList|
        invariant Reversed(Folders(fileList)) == Reversed(Folders(fileList[scan..])) + foldersToRemove
      {
        FoldersNext(fileList, scan, foldersToRemove);
        if IsFolder(fileList[scan]) {
          foldersToRemove := [fileList[scan]] + foldersToRemove;
        }
        scan := scan + 1;
      }
      FoldersEnd(fileList, foldersToRemove);
      FoldersNoEmpty(fileList);
      if foldersToRemove != [] {
        handed := NotInFolders(fileList, foldersToRemove);
        return;
      }
    }
    handed := fileList;
  }

  method NotInFolders(fileList: seq<string>, folders: seq<string>) returns (kept: seq<string>)
    requires NoEmpty(folders)
    ensures kept == Reversed(Uncovered(fileList, folders))
  {
    kept := [];
    var scan := 0;
    assert fileList[0..] == fileList;
    while scan < |fileList|
      invariant 0 <= scan <= |fileList|
      invariant Reversed(Uncovered(fileList, folders)) == Reversed(Uncovered(fileList[scan..], folders)) + kept
    {
      UncoveredNext(fileList, folders, scan, kept);
      var inside := FileIsInSubfolderOf(fileList[scan], folders);
      if !inside {
        kept := [fileList[scan]] + kept;
      }
      scan := scan + 1;
    }
  }

  lemma UncoveredNext(list: seq<string>, folders: seq<string>, i: nat, kept: seq<string>)
    requires i < |list|
    ensures var rest := Reversed(Uncovered(list[i + 1..], folders));
            Reversed(Uncovered(list[i..], folders)) + kept
              == if Covered(list[i], folders) then rest + kept else rest + ([list[i]] + kept)
  {
    assert list[i..][1..] == list[i + 1..];
    var u := Uncovered(list[i + 1..], folders);
    if Covered(list[i], folders) {
      assert [] + u == u;
    } else {
      assert ([list[i]] + u)[1..] == u;
    }
  }

  lemma FoldersStart(list: seq<string>)
    requires NoEmpty(list)
    ensures Reversed(Folders(list[0..])) + [] == Reversed(Folders(list))
  {
    assert list[0..] == list;
  }

  lemma {:induction false} ReversedLength(list: seq<string>)
    ensures |Reversed(list)| == |list|
  {
    if list != [] {
      ReversedLength(list[1..]);
    }
  }

  lemma ReversedNoEmpty(list: seq<string>)
    requires NoEmpty(list)
    ensures NoEmpty(Reversed(list))
  {
    forall i | 0 <= i < |Reversed(list)| ensures Reversed(list)[i] != "" {
      ReversedMembers(list, Reversed(list)[i]);
    }
  }

  lemma FoldersEnd(list: seq<string>, folders: seq<string>)
    requires NoEmpty(list)
    ensures Reversed(Folders(list[|list|..])) + folders == folders
  {
    assert Reversed(Folders(list[|list|..])) == [];
  }

  lemma FoldersNoEmpty(list: seq<string>)
    requires NoEmpty(list)
    ensures Reversed(Folders(list)) == [] <==> Folders(list) == []
    ensures NoEmpty(Reversed(Folders(list)))
  {
    ReversedLength(Folders(list));
    ReversedNoEmpty(Folders(list));
  }

  lemma FoldersNext(list: seq<string>, i: nat, folders: seq<string>)
    requires NoEmpty(list) && i < |list|
    ensures var rest := Reversed(Folders(list[i + 1..]));
            Reversed(Folders(list[i..])) + folders
              == if IsFolder(list[i]) then rest + ([list[i]] + folders) else rest + folders
  {
    assert list[i..][1..] == list[i + 1..];
    var f := Folders(list[i + 1..]);
    if IsFolder(list[i]) {
      assert ([list[i]] + f)[1..] == f;
    } else {
      assert [] + f == f;
    }
  }

  lemma {:induction false} ReversedMembers(list: seq<string>, x: string)
    ensures x in Reversed(list) <==> x in list
  {
    if list != [] {
      ReversedMembers(list[1..], x);
      assert list == [list[0]] + list[1..];
    }
  }

  lemma {:induction false} FolderMembers(list: seq<string>, x: string)
    requires NoEmpty(list)
    ensures x in Folders(list) <==> x in list && x != "" && IsFolder(x)
  {
    if list != [] {
      FolderMembers(list[1..], x);
      assert list == [list[0]] + list[1..];
    }
  }

  /** The path lies inside a folder of the list: an entry that ends with a slash. */
  ghost predicate InFolder(path: string, list: seq<string>) {
    exists i :: 0 <= i < |list| && list[i] != "" && list[i][|list[i]| - 1] == '/' && PathInPath(list[i], path)
  }

  lemma CoveredByFolders(path: string, list: seq<string>)
    requires NoEmpty(list)
    ensures Covered(path, Reversed(Folders(list))) <==> InFolder(path, list)
  {
    var folders := Reversed(Folders(list));
    if i :| 0 <= i < |folders| && folders[i] != "" && PathInPath(folders[i], path) {
      ReversedMembers(Folders(list), folders[i]);
      FolderMembers(list, folders[i]);
      var j :| 0 <= j < |list| && list[j] == folders[i];
    }
    if j :| 0 <= j < |list| && list[j] != "" && IsFolder(list[j]) && PathInPath(list[j], path) {
      FolderMembers(list, list[j]);
      ReversedMembers(Folders(list), list[j]);
      var i :| 0 <= i < |folders| && folders[i] == list[j];
    }
  }

  /** A command that cannot delete non-empty folders is handed exactly the requested paths that lie in no
      requested folder; any other command gets the list as it is. */
  lemma HandedOverMembers(list: seq<string>, can: bool, x: string)
    requires NoEmpty(list)
    ensures x in HandedOver(list, can) <==> x in list && (can || !InFolder(x, list))
  {
    CoveredByFolders(x, list);
    if !can && Folders(list) != [] {
      ReversedMembers(Uncovered(list, Reversed(Folders(list))), x);
      UncoveredMembers(list, Reversed(Folders(list)), x);
    }
  }

  lemma {:induction false} OutermostFolder(path: string, list: seq<string>) returns (i: nat)
    requires NoEmpty(list) && InFolder(path, list)
    ensures i < |list| && list[i] != "" && IsFolder(list[i]) && PathInPath(list[i], path) && !InFolder(list[i], list)
    decreases |path|
  {
    i :| 0 <= i < |list| && list[i] != "" && IsFolder(list[i]) && PathInPath(list[i], path);
    if InFolder(list[i], list) {
      InsideIsLonger(list[i], path);
      var j := OutermostFolder(list[i], list);
      InsideIsTransitive(list[j], list[i], path);
      i := j;
    }
  }

  lemma HandedFolderIsListed(list: seq<string>, x: string)
    requires NoEmpty(list) && InFolder(x, HandedOver(list, false))
    ensures InFolder(x, list)
  {
    var handed := HandedOver(list, false);
    var j :| 0 <= j < |handed| && handed[j] != "" && IsFolder(handed[j]) && PathInPath(handed[j], x);
    var f := handed[j];
    HandedOverMembers(list, false, f);
    assert IsFolder(f) && PathInPath(f, x) && f in list;
    var i :| 0 <= i < |list| && list[i] == f;
    assert list[i] != "" && IsFolder(list[i]) && PathInPath(list[i], x);
  }

  /** The handed-over list covers the request, without overlap: each requested path is handed over or lies in a
      handed-over folder, and none handed over lies in one that is. */
  lemma DeleteCoversRequest(list: seq<string>, x: string)
    requires NoEmpty(list) && x in list
    ensures x in HandedOver(list, false) || InFolder(x, HandedOver(list, false))
    ensures x in HandedOver(list, false) ==> !InFolder(x, HandedOver(list, false))
  {
    var handed := HandedOver(list, false);
    HandedOverMembers(list, false, x);
    if InFolder(x, list) {
      var i := OutermostFolder(x, list);
      HandedOverMembers(list, false, list[i]);
      var j :| 0 <= j < |handed| && handed[j] == list[i];
    } else if InFolder(x, handed) {
      HandedFolderIsListed(list, x);
    }
  }
}
