/** canonicalize_path of athena-dropbox.c: an array used as a stack of path components. */
module Paths {
  import opened Text

  predicate IsName(w: string) {
    w != ".." && w != "." && w != ""
  }

  /** How tall the stack is after the components: ".." pops, "." and "" are skipped. */
  function Height(elts: seq<string>): int {
    if elts == [] then 1
    else
      var h := Height(elts[..|elts| - 1]);
      var e := elts[|elts| - 1];
      if e == ".." then h - 1 else if IsName(e) then h + 1 else h
  }

  /** Every prefix of the components leaves the stack at least h tall. */
  predicate NeverBelow(h: nat, elts: seq<string>) {
    Height(elts) >= h && (elts == [] || NeverBelow(h, elts[..|elts| - 1]))
  }

  /** What the array needs: slot indices never become negative. */
  predicate InBounds(elts: seq<string>) {
    NeverBelow(0, elts)
  }

  /** No prefix has more ".." than names. */
  predicate StaysBelowRoot(elts: seq<string>) {
    NeverBelow(1, elts)
  }

  /** The slots in use after the components, the root slot included. */
  ghost function Slots(elts: seq<string>): (r: seq<string>)
    requires InBounds(elts)
    ensures |r| == Height(elts)
  {
    if elts == [] then ["/"]
    else
      var r := Slots(elts[..|elts| - 1]);
      var e := elts[|elts| - 1];
      if e == ".." then r[..|r| - 1] else if IsName(e) then r + [e] else r
  }

  /** g_build_filenamev on separator-free names, possibly after a leading "/". */
  function BuildFilename(elts: seq<string>): string {
    if elts != [] && elts[0] == "/" then "/" + Join(elts[1..], '/') else Join(elts, '/')
  }

  /** What canonicalize_path returns. */
  ghost function Cleaned(path: string): string
    requires InBounds(Split(path, '/'))
  {
    BuildFilename(Slots(Split(path, '/')))
  }

  /** The names a path denotes: read component by component, ".." at the root staying there. */
  function Resolve(elts: seq<string>): (r: seq<string>)
    ensures forall i :: 0 <= i < |r| ==> r[i] in elts && IsName(r[i])
  {
    if elts == [] then []
    else
      var r := Resolve(elts[..|elts| - 1]);
      var e := elts[|elts| - 1];
      if e == ".." then (if r == [] then [] else r[..|r| - 1]) else if IsName(e) then r + [e] else r
  }

  function Canonical(path: string): string {
    "/" + Join(Resolve(Split(path, '/')), '/')
  }

  ghost predicate IsCanonical(path: string) {
    path == "/" || (path != "" && path[0] == '/' && forall f :: f in Fields(path[1..], '/') ==> IsName(f))
  }

  // ----- the code

  method CanonicalizePath(path: string) returns (toret: string)
    requires path != "" && path[0] == '/'
    requires InBounds(Split(path, '/'))
    ensures toret == Cleaned(path)
    ensures StaysBelowRoot(Split(path, '/')) ==> toret == Canonical(path)
  {
    hide Resolve, Height, NeverBelow, Slots, Split, BuildFilename, StaysBelowRoot;
    var j := 0;
    var elts := Split(path, '/');
    FirstComponentEmpty(path);
    var cpy := new Option<string>[|elts| + 1](_ => None);
    cpy[j] := Some("/");
    j := j + 1;
    var i := 0;
    SlotsStart(elts);
    while i < |elts|
      invariant 0 <= i <= |elts|
      invariant InBounds(elts[..i]) && InBounds(elts)
      invariant j == |Slots(elts[..i])| && 0 <= j <= if i == 0 then 1 else i
      invariant forall k :: 0 <= k < j ==> cpy[k] == Some(Slots(elts[..i])[k])
    {
      SlotsStep(elts, i);
      if elts[i] == ".." {
        j := j - 1;
      } else if elts[i] != "." && elts[i] != "" {
        cpy[j] := Some(elts[i]);
        j := j + 1;
      }
      i := i + 1;
    }
    cpy[j] := None;
    assert cpy[j] == None;
    assert elts[..i] == elts;
    var vec := VectorUpToNull(cpy);
    assert vec == Slots(elts);
    toret := BuildFilename(vec);
    SlotsAreCanonical(path);
  }

  /** How g_build_filenamev reads its argument: the strings before the NULL. */
  method VectorUpToNull(a: array<Option<string>>) returns (v: seq<string>)
    requires exists k :: 0 <= k < a.Length && a[k] == None
    ensures |v| < a.Length && a[|v|] == None
    ensures forall k :: 0 <= k < |v| ==> a[k] == Some(v[k])
  {
    v := [];
    while a[|v|] != None
      invariant |v| < a.Length
      invariant forall k :: 0 <= k < |v| ==> a[k] == Some(v[k])
      decreases a.Length - |v|
    {
      v := v + [a[|v|].value];
    }
  }

  lemma FirstComponentEmpty(path: string)
    requires path != "" && path[0] == '/'
    ensures Split(path, '/') == [""] + Fields(path[1..], '/')
  {
    assert IndexOf(path, '/') == 0;
  }

  lemma {:induction false} PrefixNeverBelow(h: nat, elts: seq<string>, i: nat)
    requires i <= |elts| && NeverBelow(h, elts)
    ensures NeverBelow(h, elts[..i])
  {
    if i < |elts| {
      assert elts[..|elts| - 1][..i] == elts[..i];
      PrefixNeverBelow(h, elts[..|elts| - 1], i);
    } else {
      assert elts[..i] == elts;
    }
  }

  lemma SlotsStart(elts: seq<string>)
    ensures InBounds(elts[..0]) && Slots(elts[..0]) == ["/"]
  {
  }

  /** One round of the loop on the slots in use. */
  lemma SlotsStep(elts: seq<string>, i: nat)
    requires i < |elts| && InBounds(elts)
    ensures InBounds(elts[..i]) && InBounds(elts[..i + 1])
    ensures var r, e := Slots(elts[..i]), elts[i];
            if e == ".." then r != [] && Slots(elts[..i + 1]) == r[..|r| - 1]
            else Slots(elts[..i + 1]) == if IsName(e) then r + [e] else r
  {
    assert elts[..i + 1][..i] == elts[..i];
    PrefixNeverBelow(0, elts, i + 1);
  }

  // ----- which slots are written

  /** Slot i is one of the strv_length + 1 slots of the array. */
  predicate IsSlot(i: int, elts: seq<string>) {
    0 <= i <= |elts|
  }

  /** Every slot written is inside the array: for each name the slot behind those in use before it, and at the end
      the slot of the terminating NULL. */
  ghost predicate WritesInside(elts: seq<string>) {
    IsSlot(Height(elts), elts)
    && forall i {:trigger elts[..i]} :: 0 <= i < |elts| && IsName(elts[i]) ==> IsSlot(Height(elts[..i]), elts)
  }

  /** With the empty first component of an absolute path the array is always tall enough. */
  lemma {:induction false} HeightBound(elts: seq<string>)
    requires elts != [] && elts[0] == ""
    ensures Height(elts) <= |elts|
  {
    if |elts| == 1 {
      assert elts[..0] == [];
    } else {
      HeightBound(elts[..|elts| - 1]);
    }
  }

  lemma {:induction false} NeverBelowMeans(elts: seq<string>, i: nat)
    requires InBounds(elts) && i <= |elts|
    ensures Height(elts[..i]) >= 0
  {
    PrefixNeverBelow(0, elts, i);
  }

  /** Only a name makes the stack grow, so a stack that ends at or above the bottom without having been written
      below it never was below it. */
  lemma {:induction false} WritesAboveMeanInBounds(elts: seq<string>)
    requires Height(elts) >= 0
    requires forall i {:trigger elts[..i]} :: 0 <= i < |elts| && IsName(elts[i]) ==> Height(elts[..i]) >= 0
    ensures InBounds(elts)
  {
    if elts != [] {
      var init := elts[..|elts| - 1];
      forall i {:trigger init[..i]} | 0 <= i < |init| && IsName(init[i]) ensures Height(init[..i]) >= 0 {
        assert init[..i] == elts[..i];
      }
      WritesAboveMeanInBounds(init);
    }
  }

  /** The loop stays inside its array exactly on the paths the method accepts. */
  lemma WritesInsideIff(path: string)
    requires path != "" && path[0] == '/'
    ensures WritesInside(Split(path, '/')) <==> InBounds(Split(path, '/'))
  {
    var elts := Split(path, '/');
    FirstComponentEmpty(path);
    HeightBound(elts);
    if InBounds(elts) {
      forall i {:trigger elts[..i]} | 0 <= i < |elts| && IsName(elts[i]) ensures IsSlot(Height(elts[..i]), elts) {
        NeverBelowMeans(elts, i);
        if i > 0 {
          HeightBound(elts[..i]);
        }
      }
    }
    if WritesInside(elts) {
      WritesAboveMeanInBounds(elts);
    }
  }

  const TOO_FAR := ["", "..", "..", "x"]

  lemma TooFarParts()
    ensures Split("/../../x", '/') == TOO_FAR
  {
    hide Height, NeverBelow;
    assert TOO_FAR[1..] == ["..", "..", "x"] && ["..", "..", "x"][1..] == ["..", "x"] && ["..", "x"][1..] == ["x"];
    assert Join(["..", "x"], '/') == "../x";
    assert Join(["..", "..", "x"], '/') == "../../x";
    assert Join(TOO_FAR, '/') == "/../../x";
    FieldsOfJoin(TOO_FAR, '/');
  }

  /** For example, "/../../x" takes the stack below its bottom, and the name is written in front of the array. */
  lemma TwoLevelsTooFar()
    ensures Height(Split("/../../x", '/')[..3]) == -1 && !InBounds(Split("/../../x", '/'))
  {
    TooFarParts();
    hide NeverBelow, Split;
    var three, two, one := ["", "..", ".."], ["", ".."], [""];
    assert TOO_FAR[..3] == three && three[..2] == two && two[..1] == one && one[..0] == [];
    assert Height(one) == 1 && Height(two) == 0 && Height(three) == -1;
    if InBounds(TOO_FAR) {
      NeverBelowMeans(TOO_FAR, 3);
    }
  }

  // ----- what it means

  /** The array stack computes the recursive reading, on top of the root slot. */
  lemma {:induction false} SlotsAreResolved(elts: seq<string>)
    requires StaysBelowRoot(elts)
    ensures InBounds(elts) && Slots(elts) == ["/"] + Resolve(elts)
  {
    if elts != [] {
      SlotsAreResolved(elts[..|elts| - 1]);
    }
  }

  lemma SlotsAreCanonical(path: string)
    requires InBounds(Split(path, '/'))
    ensures StaysBelowRoot(Split(path, '/')) ==> Cleaned(path) == Canonical(path)
  {
    if StaysBelowRoot(Split(path, '/')) {
      SlotsAreResolved(Split(path, '/'));
    }
  }

  /** Once the root slot is popped it is never "/" again. */
  lemma {:induction false} RootSlotLost(elts: seq<string>)
    requires InBounds(elts) && !StaysBelowRoot(elts)
    requires forall e :: e in elts ==> '/' !in e
    ensures Slots(elts) == [] || (Slots(elts)[0] in elts && Slots(elts)[0] != "")
  {
    if elts != [] {
      var init := elts[..|elts| - 1];
      if StaysBelowRoot(init) {
        SlotsAreResolved(init);
      } else {
        RootSlotLost(init);
      }
    }
  }

  /** The result is absolute exactly when no prefix of the path climbs above the root. */
  lemma AbsoluteIffBelowRoot(path: string)
    requires path != "" && path[0] == '/'
    requires InBounds(Split(path, '/'))
    ensures var r := Cleaned(path);
            (r != "" && r[0] == '/') <==> StaysBelowRoot(Split(path, '/'))
  {
    var elts := Split(path, '/');
    if StaysBelowRoot(elts) {
      SlotsAreResolved(elts);
    } else {
      RootSlotLost(elts);
      var s := Slots(elts);
      if s != [] {
        assert s[0] in elts && s[0] != "/";
        assert Join(s, '/')[0] == s[0][0];
      }
    }
  }

  /** What each further component of a path means: "." and an empty one nothing; a name itself, until ".." takes it
      back; and ".." at the root nothing. Together with "/" this determines every canonical path. */
  lemma CanonicalStep(path: string, w: string)
    requires path != "" && '/' !in w
    ensures w == "." || w == "" ==> Canonical(path + "/" + w) == Canonical(path)
    ensures w != "." && w != "" && w != ".." ==>
              && Canonical(path + "/" + w) == (if Canonical(path) == "/" then "/" + w else Canonical(path) + "/" + w)
              && Canonical(path + "/" + w + "/" + "..") == Canonical(path)
    ensures w == ".." && Canonical(path) == "/" ==> Canonical(path + "/" + w) == "/"
  {
    hide Canonical, Resolve, Split, Join;
    var r := Resolve(Split(path, '/'));
    StepResolves(path, w);
    CanonicalIs(path);
    CanonicalIs(path + "/" + w);
    RootMeansEmpty(r);
    if w != "." && w != "" && w != ".." {
      StepResolves(path + "/" + w, "..");
      CanonicalIs(path + "/" + w + "/" + "..");
      assert (r + [w])[..|r|] == r;
      ShownSnoc(r, w);
    }
  }

  lemma CanonicalIs(path: string)
    ensures Canonical(path) == "/" + Join(Resolve(Split(path, '/')), '/')
  {
  }

  lemma StepResolves(path: string, w: string)
    requires path != "" && '/' !in w
    ensures var r, next := Resolve(Split(path, '/')), Resolve(Split(path + "/" + w, '/'));
            && (w == "." || w == "" ==> next == r)
            && (w == ".." ==> next == if r == [] then [] else r[..|r| - 1])
            && (w != "." && w != "" && w != ".." ==> next == r + [w])
  {
    hide Resolve, Split;
    SplitSnoc(path, w);
    ResolveSnoc(Split(path, '/'), w);
  }

  lemma ShownSnoc(names: seq<string>, w: string)
    ensures "/" + Join(names + [w], '/') == if names == [] then "/" + w else "/" + Join(names, '/') + "/" + w
  {
    if names == [] {
      assert names + [w] == [w];
    } else {
      JoinSnoc(names, '/', w);
      hide Join;
      assert "/" + (Join(names, '/') + ['/'] + w) == "/" + Join(names, '/') + "/" + w;
    }
  }

  lemma CanonicalRoot()
    ensures Canonical("/") == "/"
  {
    var two := ["", ""];
    assert Split("/", '/') == two;
    assert two[..1] == [""] && [""][..0] == [];
  }

  lemma SplitSnoc(path: string, w: string)
    requires path != "" && '/' !in w
    ensures Split(path + "/" + w, '/') == Split(path, '/') + [w]
  {
    FieldsSnoc(path, '/', w);
    assert path + ['/'] + w == path + "/" + w;
  }

  lemma ResolveSnoc(elts: seq<string>, w: string)
    ensures var r := Resolve(elts);
            && (w == "." || w == "" ==> Resolve(elts + [w]) == r)
            && (w == ".." ==> Resolve(elts + [w]) == if r == [] then [] else r[..|r| - 1])
            && (w != "." && w != "" && w != ".." ==> Resolve(elts + [w]) == r + [w])
  {
    assert (elts + [w])[..|elts|] == elts;
  }

  lemma RootMeansEmpty(names: seq<string>)
    requires forall i :: 0 <= i < |names| ==> names[i] != ""
    ensures "/" + Join(names, '/') == "/" <==> names == []
  {
    if names != [] {
      assert |Join(names, '/')| >= |names[0]|;
    }
  }

  lemma SnocNames(ws: seq<string>)
    requires ws != []
    ensures ([""] + ws)[..|ws|] == [""] + ws[..|ws| - 1] && ([""] + ws)[|ws|] == ws[|ws| - 1]
  {
  }

  lemma {:induction false} ResolveNames(ws: seq<string>)
    requires forall i :: 0 <= i < |ws| ==> IsName(ws[i])
    ensures Resolve([""] + ws) == ws
  {
    if ws == [] {
      assert ([""] + ws)[..0] == [];
    } else {
      SnocNames(ws);
      ResolveNames(ws[..|ws| - 1]);
      assert ws[..|ws| - 1] + [ws[|ws| - 1]] == ws;
    }
  }

  lemma {:induction false} NamesStayBelowRoot(ws: seq<string>)
    requires forall i :: 0 <= i < |ws| ==> IsName(ws[i])
    ensures StaysBelowRoot([""] + ws)
  {
    if ws == [] {
      assert ([""] + ws)[..0] == [];
    } else {
      SnocNames(ws);
      NamesStayBelowRoot(ws[..|ws| - 1]);
    }
  }

  /** A canonical path is a fixpoint: it stays below the root and denotes itself. */
  lemma CanonicalFixpoint(path: string)
    requires IsCanonical(path)
    ensures Canonical(path) == path && StaysBelowRoot(Split(path, '/'))
  {
    FirstComponentEmpty(path);
    var ws := Fields(path[1..], '/');
    if path == "/" {
      assert Split(path, '/') == [""] + [""];
      var two := ["", ""];
      assert two[..1] == [""] && [""][..0] == [];
    } else {
      ResolveNames(ws);
      NamesStayBelowRoot(ws);
      JoinOfFields(path[1..], '/');
    }
  }

  /** The result has no ".", ".." or empty component, and canonicalising again changes nothing. */
  lemma CanonicalIsIdempotent(path: string)
    ensures IsCanonical(Canonical(path))
    ensures Canonical(Canonical(path)) == Canonical(path)
    ensures StaysBelowRoot(Split(Canonical(path), '/'))
  {
    var r := Resolve(Split(path, '/'));
    var p := Canonical(path);
    if r == [] {
      assert p == "/";
    } else {
      FieldsOfJoin(r, '/');
      assert p[1..] == Join(r, '/');
    }
    CanonicalFixpoint(p);
  }
}
