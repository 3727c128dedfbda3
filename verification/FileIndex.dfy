/** The two-way table of file objects and path names in athena-dropbox.c, against the life of the objects. */
module FileIndex {
  import opened Text
  import opened Paths

  /** The address of an AthenaFileInfo. */
  type FileId = nat

  /** Both hash tables, and for every live object the number of weak notifications registered on it. */
  datatype Index = Index(filename2obj: map<string, FileId>, obj2filename: map<FileId, string>, weak: map<FileId, int>)

  // ----- what must always hold

  /** A name leads to an object that carries that name, every object in a table is alive and will tell
      when it dies, and no notification was taken back that had not been registered. */
  ghost predicate Safe(i: Index) {
    (forall n :: n in i.filename2obj ==>
      i.filename2obj[n] in i.obj2filename && i.obj2filename[i.filename2obj[n]] == n)
    && (forall o :: o in i.obj2filename ==> o in i.weak && i.weak[o] >= 1)
    && (forall o :: o in i.weak ==> i.weak[o] >= 0)
  }

  /** Every object in the table is also the one its name leads to. */
  ghost predicate Complete(i: Index) {
    forall o :: o in i.obj2filename ==> i.obj2filename[o] in i.filename2obj && i.filename2obj[i.obj2filename[o]] == o
  }

  // ----- what each handler does

  function Ref(i: Index, o: FileId): Index {
    if o in i.weak then i.(weak := i.weak[o := i.weak[o] + 1]) else i
  }

  function Unref(i: Index, o: FileId): Index {
    if o in i.weak then i.(weak := i.weak[o := i.weak[o] - 1]) else i
  }

  function Forget(i: Index, name: string, o: FileId): Index {
    i.(filename2obj := i.filename2obj - {name}, obj2filename := i.obj2filename - {o})
  }

  function Enter(i: Index, name: string, o: FileId): Index {
    i.(filename2obj := i.filename2obj[name := o], obj2filename := i.obj2filename[o := name])
  }

  /** athena_dropbox_update_file_info, the part that maintains the tables. */
  function AfterUpdate(i: Index, file: FileId, name: string): Index {
    if file in i.obj2filename then
      var stored := i.obj2filename[file];
      if stored == name then i else Enter(Ref(Forget(Unref(i, file), stored, file), file), name, file)
    else if name in i.filename2obj then
      var f2 := i.filename2obj[name];
      Enter(Ref(Forget(Unref(i, f2), name, f2), file), name, file)
    else Enter(Ref(i, file), name, file)
  }

  /** changed_cb: the object has moved to `name`, or nowhere local. */
  function AfterChanged(i: Index, file: FileId, name: Option<string>): Index {
    if file !in i.obj2filename then i
    else
      var stored := i.obj2filename[file];
      match name
      case None => Forget(Unref(i, file), stored, file)
      case Some(n) =>
        if n == stored then i
        else
          var i1 := i.(filename2obj := i.filename2obj - {stored}, obj2filename := i.obj2filename[file := n]);
          var i2 := if n in i1.filename2obj then Forget(i1, n, i1.filename2obj[n]) else i1;
          i2.(filename2obj := i2.filename2obj[n := file])
  }

  /** when_file_dies, once. */
  function AfterNotify(i: Index, o: FileId): Index {
    if o in i.obj2filename then Forget(i, i.obj2filename[o], o) else i
  }

  /** The object is gone, after every notification registered on it has run. */
  function AfterDeath(i: Index, o: FileId): Index
    requires o in i.weak
  {
    var i1 := if i.weak[o] > 0 then AfterNotify(i, o) else i;
    i1.(weak := i1.weak - {o})
  }

  /** The branch at lines 230-237 meets a name that another object is indexed under. */
  ghost predicate RenameCollides(i: Index, file: FileId, name: string) {
    file in i.obj2filename && i.obj2filename[file] != name && name in i.filename2obj
  }

  // ----- the code

  class AthenaDropbox {
    var filename2obj: map<string, FileId>
    var obj2filename: map<FileId, string>
    var weak: map<FileId, int>
    var resets: seq<FileId>

    function Model(): Index
      reads this
    {
      Index(filename2obj, obj2filename, weak)
    }

    constructor ()
      ensures Model() == Index(map[], map[], map[]) && resets == []
      ensures Safe(Model()) && Complete(Model())
    {
      filename2obj, obj2filename, weak, resets := map[], map[], map[], [];
    }

    method GObjectWeakRef(o: FileId)
      requires o in weak
      modifies this`weak
      ensures Model() == Ref(old(Model()), o)
    {
      weak := weak[o := weak[o] + 1];
    }

    /** Never called without a registered notification. */
    method GObjectWeakUnref(o: FileId)
      requires o in weak && weak[o] > 0
      modifies this`weak
      ensures Model() == Unref(old(Model()), o)
    {
      weak := weak[o := weak[o] - 1];
    }

    method UpdateFileInfo(file: FileId, pfilename: Option<string>)
      requires Safe(Model()) && file in weak
      requires pfilename.Some? ==>
                 pfilename.value != "" && pfilename.value[0] == '/' && InBounds(Split(pfilename.value, '/'))
      modifies this`filename2obj, this`obj2filename, this`weak
      ensures Model() == if pfilename.None? then old(Model())
                         else AfterUpdate(old(Model()), file, Cleaned(pfilename.value))
      ensures Safe(Model())
    {
      if pfilename.None? {
        return;
      }
      var filename := CanonicalizePath(pfilename.value);
      AfterUpdateSafe(Model(), file, filename);
      if file in obj2filename && obj2filename[file] == filename {
        return;
      }
      if file in obj2filename {
        var stored := obj2filename[file];
        GObjectWeakUnref(file);
        obj2filename := obj2filename - {file};
        filename2obj := filename2obj - {stored};
      } else if filename in filename2obj {
        var f2 := filename2obj[filename];
        GObjectWeakUnref(f2);
        filename2obj := filename2obj - {filename};
        obj2filename := obj2filename - {f2};
      }
      GObjectWeakRef(file);
      filename2obj := filename2obj[filename := file];
      obj2filename := obj2filename[file := filename];
    }

    method ChangedCb(file: FileId, pfilename: Option<string>)
      requires Safe(Model()) && file in weak
      requires pfilename.Some? ==>
                 pfilename.value != "" && pfilename.value[0] == '/' && InBounds(Split(pfilename.value, '/'))
      modifies this
      ensures Model() == AfterChanged(old(Model()), file,
                                      if pfilename.None? then None else Some(Cleaned(pfilename.value)))
      ensures Safe(Model())
      ensures resets == old(resets) + if Model() == old(Model()) then [] else [file]
    {
      var filename: Option<string> := None;
      if pfilename.Some? {
        var f := CanonicalizePath(pfilename.value);
        filename := Some(f);
      }
      AfterChangedSafe(Model(), file, filename);
      if file !in obj2filename {
        return;
      }
      var filename2 := obj2filename[file];
      if filename.None? {
        GObjectWeakUnref(file);
        filename2obj := filename2obj - {filename2};
        obj2filename := obj2filename - {file};
        ResetFile(file);
        return;
      }
      if filename.value != filename2 {
        filename2obj := filename2obj - {filename2};
        obj2filename := obj2filename[file := filename.value];
        if filename.value in filename2obj {
          var f2 := filename2obj[filename.value];
          filename2obj := filename2obj - {filename.value};
          obj2filename := obj2filename - {f2};
        }
        filename2obj := filename2obj[filename.value := file];
        ResetFile(file);
      }
    }

    method WhenFileDies(address: FileId)
      modifies this`filename2obj, this`obj2filename
      ensures Model() == AfterNotify(old(Model()), address)
    {
      if address !in obj2filename {
        return;
      }
      var filename := obj2filename[address];
      filename2obj := filename2obj - {filename};
      obj2filename := obj2filename - {address};
    }

    /** GObject disposing of an object: each registered notification runs, then the object is gone. */
    method Dispose(o: FileId)
      requires Safe(Model()) && o in weak
      modifies this`filename2obj, this`obj2filename, this`weak
      ensures Model() == AfterDeath(old(Model()), o) && Safe(Model())
    {
      AfterDeathSafe(Model(), o);
      var left := weak[o];
      while left > 0
        invariant weak == old(weak)
        invariant Model() == if left == old(weak)[o] then old(Model()) else AfterNotify(old(Model()), o)
        decreases left
      {
        WhenFileDies(o);
        left := left - 1;
      }
      weak := weak - {o};
    }

    method ResetFile(file: FileId)
      modifies this`resets
      ensures resets == old(resets) + [file]
    {
      resets := resets + [file];
    }

    /** A touch resets the object recorded under the path, if there is one: it is alive and carries that path. */
    method HandleShellTouch(args: map<string, seq<string>>)
      requires Safe(Model())
      requires "path" in args ==> args["path"] != []
      requires HasAbsolutePath(args) ==> InBounds(Split(args["path"][0], '/'))
      modifies this`resets
      ensures if HasAbsolutePath(args) && Cleaned(args["path"][0]) in filename2obj
              then var file := filename2obj[Cleaned(args["path"][0])];
                   resets == old(resets) + [file] && file in weak && obj2filename[file] == Cleaned(args["path"][0])
              else resets == old(resets)
    {
      if HasAbsolutePath(args) {
        var filename := CanonicalizePath(args["path"][0]);
        if filename in filename2obj {
          ResetFile(filename2obj[filename]);
        }
      }
    }
  }

  predicate HasAbsolutePath(args: map<string, seq<string>>)
    requires "path" in args ==> args["path"] != []
  {
    "path" in args && args["path"][0] != "" && args["path"][0][0] == '/'
  }

  // ----- the proofs

  lemma AfterUpdateSafe(i: Index, file: FileId, name: string)
    requires Safe(i) && file in i.weak
    ensures Safe(AfterUpdate(i, file, name))
  {
  }

  lemma AfterChangedSafe(i: Index, file: FileId, name: Option<string>)
    requires Safe(i) && file in i.weak
    ensures Safe(AfterChanged(i, file, name))
  {
  }

  lemma AfterDeathSafe(i: Index, o: FileId)
    requires Safe(i) && o in i.weak
    ensures Safe(AfterDeath(i, o))
  {
  }

  /** An update keeps the table complete exactly when its rename branch does not meet a name in use. */
  lemma UpdateCompleteIff(i: Index, file: FileId, name: string)
    requires Safe(i) && Complete(i) && file in i.weak
    ensures Complete(AfterUpdate(i, file, name)) <==> !RenameCollides(i, file, name)
  {
    if RenameCollides(i, file, name) {
      var f2 := i.filename2obj[name];
      assert f2 != file && AfterUpdate(i, file, name).obj2filename[f2] == name;
    }
  }

  // ----- all runs

  datatype Event =
    | Created(file: FileId)
    | Updated(file: FileId, name: string)
    | Changed(file: FileId, moved: Option<string>)
    | Died(file: FileId)

  predicate Enabled(i: Index, e: Event) {
    if e.Created? then e.file !in i.weak else e.file in i.weak
  }

  function Next(i: Index, e: Event): Index
    requires Enabled(i, e)
  {
    match e
    case Created(o) => i.(weak := i.weak[o := 0])
    case Updated(o, name) => AfterUpdate(i, o, name)
    case Changed(o, name) => AfterChanged(i, o, name)
    case Died(o) => AfterDeath(i, o)
  }

  ghost predicate Run(i: Index, events: seq<Event>, last: Index)
    decreases |events|
  {
    if events == [] then i == last
    else Enabled(i, events[0]) && Run(Next(i, events[0]), events[1..], last)
  }

  ghost predicate NoCollision(i: Index, events: seq<Event>)
    decreases |events|
  {
    events == [] ||
    (Enabled(i, events[0])
     && (events[0].Updated? ==> !RenameCollides(i, events[0].file, events[0].name))
     && NoCollision(Next(i, events[0]), events[1..]))
  }

  lemma StepSafe(i: Index, e: Event)
    requires Safe(i) && Enabled(i, e)
    ensures Safe(Next(i, e))
    ensures Complete(i) && !(e.Updated? && RenameCollides(i, e.file, e.name)) ==> Complete(Next(i, e))
  {
    match e
    case Created(_) =>
    case Updated(o, name) =>
      AfterUpdateSafe(i, o, name);
      if Complete(i) {
        UpdateCompleteIff(i, o, name);
      }
    case Changed(o, name) => AfterChangedSafe(i, o, name);
    case Died(o) => AfterDeathSafe(i, o);
  }

  /** After any sequence of creations, updates, renames and deaths, a name leads only to a live object that
      carries it and still owes a death notice; and without a rename onto a name in use the two tables
      are inverse to each other. */
  lemma {:induction false} TablesStayTrue(i: Index, events: seq<Event>, last: Index)
    requires Safe(i) && Run(i, events, last)
    ensures Safe(last)
    ensures Complete(i) && NoCollision(i, events) ==> Complete(last)
    decreases |events|
  {
    if events != [] {
      StepSafe(i, events[0]);
      TablesStayTrue(Next(i, events[0]), events[1..], last);
    }
  }

  // ----- what is recorded

  /** The event gives name n to object o: an update that finds another name recorded, or none; or a change of a known
      object that finds another. */
  predicate Gives(i: Index, e: Event, o: FileId, n: string) {
    var recorded := o in i.obj2filename;
    || (e == Updated(o, n) && !(recorded && i.obj2filename[o] == n))
    || (e == Changed(o, Some(n)) && recorded && i.obj2filename[o] != n)
  }

  /** The event takes name n away: its object is recorded under n, and moves elsewhere or dies. */
  predicate Takes(i: Index, e: Event, n: string) {
    && e.file in i.obj2filename && i.obj2filename[e.file] == n
    && ((e.Updated? && e.name != n) || (e.Changed? && e.moved != Some(n)) || e.Died?)
  }

  predicate LeadsTo(i: Index, n: string, o: FileId) {
    n in i.filename2obj && i.filename2obj[n] == o
  }

  /** A given name leads to its object, and the object is recorded under it; a name taken away leads nowhere; every
      other name leads where it did. */
  lemma NameAfter(i: Index, e: Event, n: string, o: FileId)
    requires Safe(i) && Enabled(i, e)
    ensures Gives(i, e, o, n) ==> LeadsTo(Next(i, e), n, o)
    ensures Gives(i, e, o, n) ==> o in Next(i, e).obj2filename && Next(i, e).obj2filename[o] == n
    ensures Takes(i, e, n) ==> n !in Next(i, e).filename2obj
    ensures !Takes(i, e, n) && !Gives(i, e, e.file, n) ==> (LeadsTo(Next(i, e), n, o) <==> LeadsTo(i, n, o))
  {
  }

  /** What an object is recorded under: the name it was given, or nothing after it has moved away or died, or after
      its name was given to another object; otherwise what it was. */
  lemma RecordAfter(i: Index, e: Event, o: FileId)
    requires Safe(i) && Enabled(i, e)
    ensures var c := Next(i, e);
            if e.Updated? && e.file == o then o in c.obj2filename && c.obj2filename[o] == e.name
            else if e.Changed? && e.file == o && o in i.obj2filename then
              if e.moved.Some? then o in c.obj2filename && c.obj2filename[o] == e.moved.value else o !in c.obj2filename
            else if e.Died? && e.file == o then o !in c.obj2filename
            else if Displaces(i, e, o) then o !in c.obj2filename
            else (o in c.obj2filename <==> o in i.obj2filename)
                 && (o in i.obj2filename ==> c.obj2filename[o] == i.obj2filename[o])
  {
  }

  /** The event gives the name that leads to o to another object, and o is forgotten: always when a change does it,
      and when the update of an object not yet recorded does. */
  predicate Displaces(i: Index, e: Event, o: FileId) {
    && e.file != o
    && ((e.Updated? && e.file !in i.obj2filename && LeadsTo(i, e.name, o))
        || (e.Changed? && e.moved.Some? && e.file in i.obj2filename && i.obj2filename[e.file] != e.moved.value
            && LeadsTo(i, e.moved.value, o)))
  }

  /** The notifications on an object: one more when it is first recorded, one less when it is forgotten by an update or
      has moved away, and otherwise as many as before. */
  lemma NotificationsAfter(i: Index, e: Event, o: FileId)
    requires Safe(i) && Enabled(i, e) && o in i.weak && !(e.Died? && e.file == o)
    ensures o in Next(i, e).weak
    ensures Next(i, e).weak[o] == i.weak[o]
              + (if e.Updated? && e.file == o && o !in i.obj2filename then 1 else 0)
              - (if (e.Updated? && Displaces(i, e, o)) || (e == Changed(o, None) && o in i.obj2filename) then 1 else 0)
  {
  }

  /** After an update or a change to a name, that name leads to the object, unless the object was recorded under the
      name already while another object had taken it over. */
  lemma LeadsToItsObject(i: Index, o: FileId, n: string)
    requires Safe(i) && o in i.weak
    ensures LeadsTo(AfterUpdate(i, o, n), n, o)
       <==> !(o in i.obj2filename && i.obj2filename[o] == n && !LeadsTo(i, n, o))
    ensures o in i.obj2filename ==>
              (LeadsTo(AfterChanged(i, o, Some(n)), n, o) <==> !(i.obj2filename[o] == n && !LeadsTo(i, n, o)))
  {
  }

  /** A run from empty tables, with the tables before and after each event. */
  ghost predicate History(indices: seq<Index>, events: seq<Event>) {
    && |indices| == |events| + 1 && indices[0] == EMPTY
    && forall k {:trigger events[k]} :: 0 <= k < |events| ==>
         Enabled(indices[k], events[k]) && indices[k + 1] == Next(indices[k], events[k])
  }

  lemma {:induction false} HistorySafe(indices: seq<Index>, events: seq<Event>, m: nat)
    requires History(indices, events) && m <= |events|
    ensures Safe(indices[m])
  {
    hide Safe, Next, Enabled;
    if m == 0 {
      assert Safe(EMPTY) by { NothingIsSafe(); }
    } else {
      HistorySafe(indices, events, m - 1);
      var e := events[m - 1];
      StepSafe(indices[m - 1], e);
    }
  }

  lemma NothingIsSafe()
    ensures Safe(EMPTY)
  {
  }

  /** The k-th event was the last of the first m to give or take the name, and it gave it to o. */
  ghost predicate LastGift(indices: seq<Index>, events: seq<Event>, n: string, o: FileId, k: int, m: nat)
    requires |indices| == |events| + 1 && m <= |events|
  {
    0 <= k < m && Gives(indices[k], events[k], o, n)
    && forall j {:trigger events[j]} :: k < j < m ==>
         !Takes(indices[j], events[j], n) && !Gives(indices[j], events[j], events[j].file, n)
  }

  /** In every run, a name leads to an object exactly if the last event that gave or took the name gave it to that
      object. */
  lemma {:induction false} LastGiftDecides(indices: seq<Index>, events: seq<Event>, n: string, o: FileId, m: nat)
    requires History(indices, events) && m <= |events|
    ensures LeadsTo(indices[m], n, o) <==> exists k :: LastGift(indices, events, n, o, k, m)
  {
    hide Safe, Next, Enabled, Gives, Takes, LeadsTo;
    if m == 0 {
      NothingLeads(n, o);
    } else {
      LastGiftDecides(indices, events, n, o, m - 1);
      HistorySafe(indices, events, m - 1);
      var e := events[m - 1];
      NameAfter(indices[m - 1], e, n, o);
      NameAfter(indices[m - 1], e, n, e.file);
      GiftIsOne(indices[m - 1], e, n, o);
      if !Takes(indices[m - 1], e, n) && !Gives(indices[m - 1], e, e.file, n) {
        var p: nat := m - 1;
        if k :| LastGift(indices, events, n, o, k, p) {
          assert LastGift(indices, events, n, o, k, m);
        }
        if k :| LastGift(indices, events, n, o, k, m) {
          assert k < m - 1;
          assert LastGift(indices, events, n, o, k, p);
        }
      } else if Gives(indices[m - 1], e, o, n) {
        assert LastGift(indices, events, n, o, m - 1, m);
      } else {
        forall k: int ensures !LastGift(indices, events, n, o, k, m) {
          NotBehind(indices, events, n, o, k, m);
        }
      }
    }
  }

  lemma NotBehind(indices: seq<Index>, events: seq<Event>, n: string, o: FileId, k: int, m: nat)
    requires |indices| == |events| + 1 && 0 < m <= |events|
    requires var i, e := indices[m - 1], events[m - 1];
             !Gives(i, e, o, n) && (Takes(i, e, n) || Gives(i, e, e.file, n))
    ensures !LastGift(indices, events, n, o, k, m)
  {
    hide Gives, Takes;
    var e := events[m - 1];
  }

  lemma NothingLeads(n: string, o: FileId)
    ensures !LeadsTo(EMPTY, n, o)
  {
  }

  /** An event gives a name to its own object only, and does not also take it. */
  lemma GiftIsOne(i: Index, e: Event, n: string, o: FileId)
    requires Safe(i) && Enabled(i, e)
    ensures Gives(i, e, o, n) ==> e.file == o && !Takes(i, e, n)
    ensures Gives(i, e, e.file, n) && e.file != o ==> !LeadsTo(Next(i, e), n, o)
    ensures Takes(i, e, n) ==> !LeadsTo(Next(i, e), n, o)
  {
    NameAfter(i, e, n, o);
    NameAfter(i, e, n, e.file);
  }

  const EMPTY := Index(map[], map[], map[])
  const TWO_FILES := Index(map["/a" := 1, "/b" := 2], map[1 := "/a", 2 := "/b"], map[1 := 1, 2 := 1])
  const COLLIDED := Index(map["/b" := 1], map[1 := "/b", 2 := "/b"], map[1 := 1, 2 := 1])

  /** Such a collision does happen: two files are seen, and the first is then updated under the second's name.
      The second keeps that name in its own entry, but the name no longer leads to it. */
  lemma CollisionIsReached()
    ensures Run(EMPTY, [Created(1), Created(2), Updated(1, "/a"), Updated(2, "/b")], TWO_FILES)
    ensures Safe(TWO_FILES) && Complete(TWO_FILES) && RenameCollides(TWO_FILES, 1, "/b")
    ensures Enabled(TWO_FILES, Updated(1, "/b")) && Next(TWO_FILES, Updated(1, "/b")) == COLLIDED
    ensures Safe(COLLIDED) && !Complete(COLLIDED)
  {
    TwoFilesSeen();
    TwoFilesCollide();
    hide *;
  }

  lemma TwoFilesCollide()
    ensures Safe(TWO_FILES) && Complete(TWO_FILES) && RenameCollides(TWO_FILES, 1, "/b")
    ensures Enabled(TWO_FILES, Updated(1, "/b")) && Next(TWO_FILES, Updated(1, "/b")) == COLLIDED
    ensures Safe(COLLIDED) && !Complete(COLLIDED)
  {
    TwoFilesTrue();
    CollisionStep();
    hide Safe, Complete, AfterUpdate;
    AfterUpdateSafe(TWO_FILES, 1, "/b");
    UpdateCompleteIff(TWO_FILES, 1, "/b");
  }

  lemma TwoFilesTrue()
    ensures Safe(TWO_FILES) && Complete(TWO_FILES)
  {
  }

  lemma CollisionStep()
    ensures AfterUpdate(TWO_FILES, 1, "/b") == COLLIDED
  {
    Unrefed();
    Forgotten();
    Refed();
    Entered();
    assert TWO_FILES.obj2filename[1] == "/a";
    hide Unref, Forget, Ref, Enter;
  }

  const HALF := Index(map["/b" := 2], map[2 := "/b"], map[1 := 0, 2 := 1])

  lemma Unrefed()
    ensures Unref(TWO_FILES, 1) == TWO_FILES.(weak := map[1 := 0, 2 := 1])
  {
  }

  lemma Forgotten()
    ensures Forget(TWO_FILES.(weak := map[1 := 0, 2 := 1]), "/a", 1) == HALF
  {
  }

  lemma Refed()
    ensures Ref(HALF, 1) == HALF.(weak := map[1 := 1, 2 := 1])
  {
  }

  lemma Entered()
    ensures Enter(HALF.(weak := map[1 := 1, 2 := 1]), "/b", 1) == COLLIDED
  {
  }

  lemma TwoFilesSeen()
    ensures Run(EMPTY, [Created(1), Created(2), Updated(1, "/a"), Updated(2, "/b")], TWO_FILES)
  {
    var a := Index(map[], map[], map[1 := 0]);
    var b := Index(map[], map[], map[1 := 0, 2 := 0]);
    var c := Index(map["/a" := 1], map[1 := "/a"], map[1 := 1, 2 := 0]);
    assert Next(EMPTY, Created(1)) == a && Next(a, Created(2)) == b;
    assert Next(b, Updated(1, "/a")) == c && Next(c, Updated(2, "/b")) == TWO_FILES;
    hide Next;
    FourSteps(EMPTY, a, b, c, TWO_FILES, Created(1), Created(2), Updated(1, "/a"), Updated(2, "/b"));
  }

  lemma FourSteps(i: Index, a: Index, b: Index, c: Index, d: Index, e: Event, f: Event, g: Event, h: Event)
    requires Enabled(i, e) && a == Next(i, e) && Enabled(a, f) && b == Next(a, f)
    requires Enabled(b, g) && c == Next(b, g) && Enabled(c, h) && d == Next(c, h)
    ensures Run(i, [e, f, g, h], d)
  {
    hide Next, Enabled;
    assert [e, f, g, h][1..] == [f, g, h] && [f, g, h][1..] == [g, h] && [g, h][1..] == [h] && [h][1..] == [];
    assert Run(d, [], d) && Run(c, [h], d) && Run(b, [g, h], d) && Run(a, [f, g, h], d);
  }
}
