/** Expanding the Exec key of a desktop file (eggdesktopfile.c), against a reader that follows the shell's
    quoting rules (POSIX XCU section 2.2). */
module ExecLine {
  import opened Text

  // ----- the shell reader

  datatype Quote = Bare | Single | Double | BareEscape | DoubleEscape

  /** A character after quote removal: quoted ones stand for themselves, plain ones the shell may still interpret. */
  datatype Sym = Plain(c: char) | Quoted(c: char)

  function NextQuote(q: Quote, c: char): Quote {
    match q
    case Bare => if c == '\'' then Single else if c == '"' then Double else if c == '\\' then BareEscape else Bare
    case Single => if c == '\'' then Bare else Single
    case Double => if c == '"' then Bare else if c == '\\' then DoubleEscape else Double
    case BareEscape => Bare
    case DoubleEscape => Double
  }

  function SymsOf(q: Quote, c: char): seq<Sym> {
    match q
    case Bare => if c == '\'' || c == '"' || c == '\\' then [] else [Plain(c)]
    case Single => if c == '\'' then [] else [Quoted(c)]
    case Double =>
      if c == '"' || c == '\\' then [] else if c == '$' || c == '`' then [Plain(c)] else [Quoted(c)]
    case BareEscape => if c == '\n' then [] else [Quoted(c)]
    case DoubleEscape =>
      if c == '\n' then []
      else if c == '$' || c == '`' || c == '"' || c == '\\' then [Quoted(c)] else [Quoted('\\'), Quoted(c)]
  }

  function ReadQuote(text: string, q: Quote): Quote
    decreases |text|
  {
    if text == "" then q else ReadQuote(text[1..], NextQuote(q, text[0]))
  }

  function Read(text: string, q: Quote): seq<Sym>
    decreases |text|
  {
    if text == "" then [] else SymsOf(q, text[0]) + Read(text[1..], NextQuote(q, text[0]))
  }

  lemma {:induction false} ReadAppend(a: string, b: string, q: Quote)
    ensures ReadQuote(a + b, q) == ReadQuote(b, ReadQuote(a, q))
    ensures Read(a + b, q) == Read(a, q) + Read(b, ReadQuote(a, q))
    decreases |a|
  {
    if a == "" {
      assert a + b == b;
    } else {
      assert (a + b)[1..] == a[1..] + b;
      ReadAppend(a[1..], b, NextQuote(q, a[0]));
      SymAssoc(SymsOf(q, a[0]), Read(a[1..], NextQuote(q, a[0])), Read(b, ReadQuote(a, q)));
    }
  }

  lemma SymAssoc(a: seq<Sym>, b: seq<Sym>, c: seq<Sym>)
    ensures a + (b + c) == a + b + c
  {
  }

  /** A text taken literally. */
  function Literal(s: string): (r: seq<Sym>)
    ensures |r| == |s| && forall i :: 0 <= i < |s| ==> r[i] == Quoted(s[i])
  {
    seq(|s|, i requires 0 <= i < |s| => Quoted(s[i]))
  }

  /** The three ways to quote: everything up to the next single quote stands for itself; so does a text in double
      quotes without the characters that stay special there; and so does a character behind a backslash. */
  lemma {:induction false} SingleMeans(s: string, rest: string)
    requires '\'' !in s
    ensures Read(s + "'" + rest, Single) == Literal(s) + Read(rest, Bare)
    decreases |s|
  {
    if s != "" {
      SingleMeans(s[1..], rest);
      QuotedFirst(s, "'" + rest);
      assert s + "'" + rest == s + ("'" + rest) && s[1..] + "'" + rest == s[1..] + ("'" + rest);
      SymAssoc([Quoted(s[0])], Literal(s[1..]), Read(rest, Bare));
    } else {
      assert s + "'" + rest == ['\''] + rest && (['\''] + rest)[1..] == rest;
    }
  }

  lemma {:induction false} DoubleMeans(s: string, rest: string)
    requires forall i :: 0 <= i < |s| ==> s[i] !in "\"\\$`"
    ensures Read(s + "\"" + rest, Double) == Literal(s) + Read(rest, Bare)
    decreases |s|
  {
    if s != "" {
      DoubleMeans(s[1..], rest);
      QuotedFirst(s, "\"" + rest);
      assert s + "\"" + rest == s + ("\"" + rest) && s[1..] + "\"" + rest == s[1..] + ("\"" + rest);
      SymAssoc([Quoted(s[0])], Literal(s[1..]), Read(rest, Bare));
    } else {
      assert s + "\"" + rest == ['"'] + rest && (['"'] + rest)[1..] == rest;
    }
  }

  lemma QuotedFirst(s: string, tail: string)
    requires s != ""
    ensures Literal(s) == [Quoted(s[0])] + Literal(s[1..])
    ensures s[0] != '\'' ==> Read(s + tail, Single) == [Quoted(s[0])] + Read(s[1..] + tail, Single)
    ensures s[0] !in "\"\\$`" ==> Read(s + tail, Double) == [Quoted(s[0])] + Read(s[1..] + tail, Double)
  {
    assert (s + tail)[1..] == s[1..] + tail;
  }

  lemma EscapeMeans(c: char, rest: string)
    requires c != '\n'
    ensures Read("\\" + [c] + rest, Bare) == [Quoted(c)] + Read(rest, Bare)
    ensures Read("\\" + [c] + rest, Double)
         == (if c in "$`\"\\" then [Quoted(c)] else [Quoted('\\'), Quoted(c)]) + Read(rest, Double)
    ensures Read("\\" + [c] + rest, Single) == [Quoted('\\')] + Read([c] + rest, Single)
  {
    var t := "\\" + [c] + rest;
    assert t[1..] == [c] + rest && t[1..][1..] == rest;
  }

  /** A text without special characters, as read in a given context. */
  function Shown(s: string, q: Quote): (r: seq<Sym>)
    ensures |r| == |s|
  {
    seq(|s|, i requires 0 <= i < |s| => if q == Bare then Plain(s[i]) else Quoted(s[i]))
  }

  predicate Ordinary(s: string) {
    forall i :: 0 <= i < |s| ==> s[i] !in "'\"\\$`\n"
  }

  predicate Context(q: Quote) {
    q == Bare || q == Single || q == Double
  }

  lemma {:induction false} ReadOrdinary(s: string, q: Quote)
    requires Ordinary(s) && Context(q)
    ensures ReadQuote(s, q) == q && Read(s, q) == Shown(s, q)
    decreases |s|
  {
    if s != "" {
      ReadOrdinary(s[1..], q);
      assert Shown(s, q) == SymsOf(q, s[0]) + Shown(s[1..], q);
    }
  }

  // ----- quoting one word

  /** What append_quoted_word puts between the quotes. */
  function Body(s: string): string {
    if s == "" then "" else (if s[0] == '\'' then "'\\''" else [s[0]]) + Body(s[1..])
  }

  function QuotedWord(s: string, inSingle: bool, inDouble: bool): string {
    (if inSingle then "" else if inDouble then "\"'" else "'")
    + Body(s)
    + (if inSingle then "" else if inDouble then "'\"" else "'")
  }

  lemma {:induction false} BodyReads(s: string)
    ensures ReadQuote(Body(s), Single) == Single && Read(Body(s), Single) == Literal(s)
  {
    if s != "" {
      var first := if s[0] == '\'' then "'\\''" else [s[0]];
      BodyCharReads(s[0]);
      BodyReads(s[1..]);
      ReadAppend(first, Body(s[1..]), Single);
      assert Literal(s) == [Quoted(s[0])] + Literal(s[1..]);
    }
  }

  lemma BodyCharReads(c: char)
    ensures var first := if c == '\'' then "'\\''" else [c];
            ReadQuote(first, Single) == Single && Read(first, Single) == [Quoted(c)]
  {
    if c == '\'' {
      var t := "'\\''";
      assert t[1..] == "\\''" && t[1..][1..] == "''" && t[1..][1..][1..] == "'" && t[1..][1..][1..][1..] == "";
    } else {
      assert [c][1..] == "";
    }
  }

  predicate Tracks(q: Quote, escape: bool, inSingle: bool, inDouble: bool) {
    match q
    case Bare => !escape && !inSingle && !inDouble
    case Single => !escape && inSingle && !inDouble
    case Double => !escape && !inSingle && inDouble
    case BareEscape => escape && !inSingle && !inDouble
    case DoubleEscape => escape && !inSingle && inDouble
  }

  /** An inserted word is read back byte for byte, and the quoting context is as it was. */
  lemma QuotedWordReads(s: string, q: Quote, inSingle: bool, inDouble: bool)
    requires Tracks(q, false, inSingle, inDouble)
    ensures ReadQuote(QuotedWord(s, inSingle, inDouble), q) == q
    ensures Read(QuotedWord(s, inSingle, inDouble), q) == Literal(s)
  {
    var before := if inSingle then "" else if inDouble then "\"'" else "'";
    var after := if inSingle then "" else if inDouble then "'\"" else "'";
    QuotesRead(q, inSingle, inDouble);
    BodyReads(s);
    ReadAppend(before, Body(s), q);
    ReadAppend(before + Body(s), after, q);
    assert [] + Literal(s) + [] == Literal(s);
  }

  lemma QuotesRead(q: Quote, inSingle: bool, inDouble: bool)
    requires Tracks(q, false, inSingle, inDouble)
    ensures var before := if inSingle then "" else if inDouble then "\"'" else "'";
            var after := if inSingle then "" else if inDouble then "'\"" else "'";
            ReadQuote(before, q) == Single && Read(before, q) == []
            && ReadQuote(after, Single) == q && Read(after, Single) == []
  {
    assert "\"'"[1..] == "'" && "'\""[1..] == "\"" && "'"[1..] == "" && "\""[1..] == "";
  }

  // ----- what an Exec line means

  datatype DesktopFile = DesktopFile(
    exec: Option<string>,
    icon: Option<string>,
    name: Option<string>,
    source: Option<string>,
    terminal: Option<Option<bool>>)   // the Terminal key: absent, malformed, or a boolean

  /** What a reader gets, and the documents left over. */
  datatype Reading = Reading(syms: seq<Sym>, docs: seq<string>)

  function WithSpace(doc: string, q: Quote): seq<Sym> {
    Shown(" ", q) + Literal(doc)
  }

  function AllDocs(docs: seq<string>, q: Quote): seq<Sym> {
    if docs == [] then [] else WithSpace(docs[0], q) + AllDocs(docs[1..], q)
  }

  lemma OneDocument(docs: seq<string>, q: Quote)
    ensures |docs| == 1 ==> AllDocs(docs, q) == WithSpace(docs[0], q)
  {
    if |docs| == 1 {
      assert docs[1..] == [] && WithSpace(docs[0], q) + [] == WithSpace(docs[0], q);
    }
  }

  predicate IsDocCode(code: char) {
    code == 'F' || code == 'U' || code == 'f' || code == 'u'
  }

  /** The field codes of the Desktop Entry Specification, "The Exec key". */
  function CodeMeaning(file: DesktopFile, code: char, docs: seq<string>, q: Quote): Reading {
    match code
    case '%' => Reading(Shown("%", q), docs)
    case 'F' => Reading(AllDocs(docs, q), [])
    case 'U' => Reading(AllDocs(docs, q), [])
    case 'f' => if docs == [] then Reading([], []) else Reading(WithSpace(docs[0], q), docs[1..])
    case 'u' => if docs == [] then Reading([], []) else Reading(WithSpace(docs[0], q), docs[1..])
    case 'i' => Reading(if file.icon.Some? then Shown("--icon ", q) + Literal(file.icon.value) else [], docs)
    case 'c' => Reading(if file.name.Some? then Literal(file.name.value) else [], docs)
    case 'k' => Reading(if file.source.Some? then Literal(file.source.value) else [], docs)
    case _ => Reading([], docs)
  }

  /** Reading the Exec line itself as a shell would, with each code replaced by what it stands for. */
  function Meaning(file: DesktopFile, exec: string, docs: seq<string>, q: Quote): Reading
    decreases |exec|
  {
    if exec == "" then Reading([], docs)
    else if Context(q) && exec[0] == '%' && |exec| > 1 then
      var first := CodeMeaning(file, exec[1], docs, q);
      var rest := Meaning(file, exec[2..], first.docs, q);
      Reading(first.syms + rest.syms, rest.docs)
    else
      var rest := Meaning(file, exec[1..], docs, NextQuote(q, exec[0]));
      Reading(SymsOf(q, exec[0]) + rest.syms, rest.docs)
  }

  // ----- the code

  class GString {
    var str: string

    constructor (s: string)
      ensures str == s
    {
      str := s;
    }

    method Append(s: string)
      modifies this
      ensures str == old(str) + s
    {
      str := str + s;
    }
  }

  method AppendQuotedWord(str: GString, s: string, inSingle: bool, inDouble: bool)
    requires !(inSingle && inDouble)
    modifies str
    ensures str.str == old(str.str) + QuotedWord(s, inSingle, inDouble)
  {
    if !inSingle && !inDouble {
      str.Append("'");
    } else if !inSingle && inDouble {
      str.Append("\"'");
    }
    AppendBody(str, s);
    if !inSingle && !inDouble {
      str.Append("'");
    } else if !inSingle && inDouble {
      str.Append("'\"");
    }
  }

  method AppendBody(str: GString, s: string)
    modifies str
    ensures str.str == old(str.str) + Body(s)
  {
    if '\'' !in s {
      BodyWithoutQuotes(s);
      str.Append(s);
    } else {
      var p := 0;
      assert s[..0] == "" && Body("") == "";
      while p < |s|
        invariant 0 <= p <= |s|
        invariant str.str == old(str.str) + Body(s[..p])
      {
        BodySnoc(s, p);
        if s[p] == '\'' {
          str.Append("'\\''");
        } else {
          str.Append([s[p]]);
        }
        p := p + 1;
      }
      assert s[..p] == s;
    }
  }

  lemma {:induction false} BodyWithoutQuotes(s: string)
    requires '\'' !in s
    ensures Body(s) == s
  {
    if s != "" {
      BodyWithoutQuotes(s[1..]);
    }
  }

  lemma {:induction false} BodySnoc(s: string, p: nat)
    requires p < |s|
    ensures Body(s[..p + 1]) == Body(s[..p]) + if s[p] == '\'' then "'\\''" else [s[p]]
  {
    if p > 0 {
      BodySnoc(s[1..], p - 1);
      assert s[..p + 1][1..] == s[1..][..p] && s[..p][1..] == s[1..][..p - 1];
    } else {
      assert s[..1][1..] == "" && s[..0] == "";
    }
  }

  /** Appending a text that is read as `syms` without changing the context. */
  ghost predicate Appends(before: string, after: string, q: Quote, syms: seq<Sym>) {
    ReadQuote(after, Bare) == q && Read(after, Bare) == Read(before, Bare) + syms
  }

  lemma AppendReads(before: string, text: string, q: Quote)
    requires ReadQuote(before, Bare) == q
    ensures ReadQuote(before + text, Bare) == ReadQuote(text, q)
    ensures Read(before + text, Bare) == Read(before, Bare) + Read(text, q)
  {
    ReadAppend(before, text, Bare);
  }

  method AppendWord(str: GString, s: string, inSingle: bool, inDouble: bool, ghost q: Quote)
    requires Tracks(q, false, inSingle, inDouble) && ReadQuote(str.str, Bare) == q
    modifies str
    ensures Appends(old(str.str), str.str, q, Literal(s))
  {
    AppendReads(str.str, QuotedWord(s, inSingle, inDouble), q);
    QuotedWordReads(s, q, inSingle, inDouble);
    AppendQuotedWord(str, s, inSingle, inDouble);
  }

  method AppendOrdinary(str: GString, s: string, ghost q: Quote)
    requires Context(q) && ReadQuote(str.str, Bare) == q && Ordinary(s)
    modifies str
    ensures Appends(old(str.str), str.str, q, Shown(s, q))
  {
    AppendReads(str.str, s, q);
    ReadOrdinary(s, q);
    str.Append(s);
  }

  method DoPercentSubst(file: DesktopFile, code: char, str: GString, documents: seq<string>,
                        inSingle: bool, inDouble: bool, ghost q: Quote) returns (rest: seq<string>)
    requires Tracks(q, false, inSingle, inDouble) && ReadQuote(str.str, Bare) == q
    modifies str
    ensures Appends(old(str.str), str.str, q, CodeMeaning(file, code, documents, q).syms)
    ensures rest == CodeMeaning(file, code, documents, q).docs
    ensures code == '%' ==> Appends(old(str.str), str.str, q, Shown("%", q)) && rest == documents
    ensures (code == 'f' || code == 'u') && documents != [] ==>
              Appends(old(str.str), str.str, q, Shown(" ", q) + Literal(documents[0])) && rest == documents[1..]
    ensures (code == 'F' || code == 'U') && |documents| == 1 ==>
              Appends(old(str.str), str.str, q, Shown(" ", q) + Literal(documents[0])) && rest == []
    ensures code == 'i' && file.icon.Some? ==>
              Appends(old(str.str), str.str, q, Shown("--icon ", q) + Literal(file.icon.value)) && rest == documents
    ensures code == 'c' && file.name.Some? ==>
              Appends(old(str.str), str.str, q, Literal(file.name.value)) && rest == documents
    ensures code == 'k' && file.source.Some? ==>
              Appends(old(str.str), str.str, q, Literal(file.source.value)) && rest == documents
    ensures code !in "%FUfuick" ==> str.str == old(str.str) && rest == documents
  {
    OneDocument(documents, q);
    rest := documents;
    match code
    case '%' =>
      AppendOrdinary(str, "%", q);
    case 'F' =>
      AppendDocuments(str, documents, inSingle, inDouble, q);
      rest := [];
    case 'U' =>
      AppendDocuments(str, documents, inSingle, inDouble, q);
      rest := [];
    case 'f' =>
      if documents != [] {
        AppendDocument(str, documents[0], inSingle, inDouble, q);
        rest := documents[1..];
      }
    case 'u' =>
      if documents != [] {
        AppendDocument(str, documents[0], inSingle, inDouble, q);
        rest := documents[1..];
      }
    case 'i' =>
      if file.icon.Some? {
        AppendOrdinary(str, "--icon ", q);
        AppendWord(str, file.icon.value, inSingle, inDouble, q);
        SymAssoc(Read(old(str.str), Bare), Shown("--icon ", q), Literal(file.icon.value));
      }
    case 'c' =>
      if file.name.Some? {
        AppendWord(str, file.name.value, inSingle, inDouble, q);
      }
    case 'k' =>
      if file.source.Some? {
        AppendWord(str, file.source.value, inSingle, inDouble, q);
      }
    case _ =>
  }

  /** A space and the quoted document. */
  method AppendDocument(str: GString, doc: string, inSingle: bool, inDouble: bool, ghost q: Quote)
    requires Tracks(q, false, inSingle, inDouble) && ReadQuote(str.str, Bare) == q
    modifies str
    ensures Appends(old(str.str), str.str, q, WithSpace(doc, q))
  {
    AppendOrdinary(str, " ", q);
    AppendWord(str, doc, inSingle, inDouble, q);
    SymAssoc(Read(old(str.str), Bare), Shown(" ", q), Literal(doc));
  }

  method AppendDocuments(str: GString, documents: seq<string>, inSingle: bool, inDouble: bool, ghost q: Quote)
    requires Tracks(q, false, inSingle, inDouble) && ReadQuote(str.str, Bare) == q
    modifies str
    ensures Appends(old(str.str), str.str, q, AllDocs(documents, q))
  {
    hide WithSpace, Read, ReadQuote, Tracks;
    var d := documents;
    while d != []
      invariant ReadQuote(str.str, Bare) == q
      invariant Read(str.str, Bare) + AllDocs(d, q) == Read(old(str.str), Bare) + AllDocs(documents, q)
      decreases |d|
    {
      SymAssoc(Read(str.str, Bare), WithSpace(d[0], q), AllDocs(d[1..], q));
      AppendDocument(str, d[0], inSingle, inDouble, q);
      d := d[1..];
    }
    assert Read(str.str, Bare) + [] == Read(str.str, Bare);
  }

  /** The loop of parse_exec. A shell reading the command gets the Exec line's meaning, whatever the documents,
      icon, name and source contain. */
  method BuildCommand(file: DesktopFile, exec: string, documents: seq<string>)
    returns (command: string, rest: seq<string>)
    ensures Read(command, Bare) == Meaning(file, exec, documents, Bare).syms
    ensures rest == Meaning(file, exec, documents, Bare).docs
    ensures ReadQuote(command, Bare) == EndQuote(exec, Bare)
  {
    var gs := new GString("");
    var escape, singleQuot, doubleQuot := false, false, false;
    rest := documents;
    ghost var q := Bare;
    var p := 0;
    ghost var goal := Meaning(file, exec, documents, Bare);
    assert exec[0..] == exec;
    while p < |exec|
      invariant 0 <= p <= |exec| && fresh(gs)
      invariant Tracks(q, escape, singleQuot, doubleQuot) && ReadQuote(gs.str, Bare) == q
      invariant Read(gs.str, Bare) + Meaning(file, exec[p..], rest, q).syms == goal.syms
      invariant Meaning(file, exec[p..], rest, q).docs == goal.docs
      invariant EndQuote(exec[p..], q) == EndQuote(exec, Bare)
    {
      ghost var before, start, left := gs.str, p, rest;
      MeaningNext(file, exec, p, rest, q);
      if !escape && exec[p] == '%' && p + 1 < |exec| {
        rest := DoPercentSubst(file, exec[p + 1], gs, rest, singleQuot, doubleQuot, q);
        SymAssoc(Read(before, Bare), CodeMeaning(file, exec[p + 1], left, q).syms,
                 Meaning(file, exec[p + 2..], rest, q).syms);
        p := p + 2;
      } else {
        AppendReads(gs.str, [exec[p]], q);
        OneCharReads(exec[p], q);
        gs.Append([exec[p]]);
        escape, singleQuot, doubleQuot := NextFlags(exec[p], escape, singleQuot, doubleQuot, q);
        SymAssoc(Read(before, Bare), SymsOf(q, exec[p]),
                 Meaning(file, exec[p + 1..], rest, NextQuote(q, exec[p])).syms);
        q := NextQuote(q, exec[p]);
        p := p + 1;
      }
    }
    command := gs.str;
  }

  /** The branches of the loop that copy a character and update the flags. */
  method NextFlags(c: char, escape: bool, singleQuot: bool, doubleQuot: bool, ghost q: Quote)
    returns (escape': bool, singleQuot': bool, doubleQuot': bool)
    requires Tracks(q, escape, singleQuot, doubleQuot)
    ensures Tracks(NextQuote(q, c), escape', singleQuot', doubleQuot')
  {
    escape', singleQuot', doubleQuot' := escape, singleQuot, doubleQuot;
    if escape {
      escape' := false;
    } else if c == '\\' {
      if !singleQuot {
        escape' := true;
      }
    } else if c == '\'' {
      if !singleQuot && !doubleQuot {
        singleQuot' := true;
      } else if singleQuot {
        singleQuot' := false;
      }
    } else if c == '"' {
      if !singleQuot && !doubleQuot {
        doubleQuot' := true;
      } else if doubleQuot {
        doubleQuot' := false;
      }
    }
  }

  /** The quoting state at the end of the Exec line, its codes skipped. */
  function EndQuote(exec: string, q: Quote): Quote
    decreases |exec|
  {
    if exec == "" then q
    else if Context(q) && exec[0] == '%' && |exec| > 1 then EndQuote(exec[2..], q)
    else EndQuote(exec[1..], NextQuote(q, exec[0]))
  }

  lemma OneCharReads(c: char, q: Quote)
    ensures ReadQuote([c], q) == NextQuote(q, c) && Read([c], q) == SymsOf(q, c)
  {
    assert [c][1..] == "";
  }

  lemma MeaningNext(file: DesktopFile, exec: string, p: nat, docs: seq<string>, q: Quote)
    requires p < |exec|
    ensures var here := Meaning(file, exec[p..], docs, q);
            if Context(q) && exec[p] == '%' && p + 1 < |exec| then
              var first := CodeMeaning(file, exec[p + 1], docs, q);
              && here == Reading(first.syms + Meaning(file, exec[p + 2..], first.docs, q).syms,
                                 Meaning(file, exec[p + 2..], first.docs, q).docs)
              && EndQuote(exec[p..], q) == EndQuote(exec[p + 2..], q)
            else
              var rest := Meaning(file, exec[p + 1..], docs, NextQuote(q, exec[p]));
              here == Reading(SymsOf(q, exec[p]) + rest.syms, rest.docs)
              && EndQuote(exec[p..], q) == EndQuote(exec[p + 1..], NextQuote(q, exec[p]))
  {
    var t := exec[p..];
    assert t[1..] == exec[p + 1..];
    if |t| > 1 {
      assert t[2..] == exec[p + 2..] && t[1] == exec[p + 1];
    }
  }

  const TERMINAL := "xdg-terminal "

  /** `command` is what the Exec line with these documents means to a shell, as a word of its own after
      the terminal program if the file asks for a terminal. */
  ghost predicate Stands(file: DesktopFile, inner: string, command: string, docs: seq<string>)
    requires file.exec.Some?
  {
    Read(inner, Bare) == Meaning(file, file.exec.value, docs, Bare).syms
    && ReadQuote(inner, Bare) == EndQuote(file.exec.value, Bare)
    && (if file.terminal == Some(Some(true))
        then ReadQuote(command, Bare) == Bare && Read(command, Bare) == Shown("xdg-terminal ", Bare) + Literal(inner)
        else command == inner)
  }

  /** parse_exec: no Exec key or a malformed Terminal key is an error. */
  method ParseExec(file: DesktopFile, documents: seq<string>)
    returns (command: Option<string>, rest: seq<string>, ghost inner: string)
    ensures command.None? <==> file.exec.None? || file.terminal == Some(None)
    ensures command.Some? ==> Stands(file, inner, command.value, documents)
    ensures rest == if file.exec.None? then documents else Meaning(file, file.exec.value, documents, Bare).docs
  {
    hide Meaning, EndQuote, CodeMeaning, SymsOf, NextQuote;
    inner, rest := "", documents;
    if file.exec.None? {
      return None, documents, "";
    }
    var built;
    built, rest := BuildCommand(file, file.exec.value, documents);
    inner := built;
    if file.terminal.Some? {
      if file.terminal.value.None? {
        return None, rest, inner;
      }
      if file.terminal.value.value {
        var gs := new GString(TERMINAL);
        ReadOrdinary(TERMINAL, Bare);
        AppendWord(gs, built, false, false, Bare);
        return Some(gs.str), rest, inner;
      }
    }
    command := Some(built);
  }

  // ----- which documents a pass takes

  /** The parser meets a document code outside an escape. */
  predicate TakesDocument(exec: string, q: Quote)
    decreases |exec|
  {
    if exec == "" then false
    else if Context(q) && exec[0] == '%' && |exec| > 1 then IsDocCode(exec[1]) || TakesDocument(exec[2..], q)
    else TakesDocument(exec[1..], NextQuote(q, exec[0]))
  }

  /** The scan that sets document_code, which knows nothing of escapes; NUL when there is none. */
  function DocumentCode(exec: string): char
    decreases |exec|
  {
    if exec == "" then '\0'
    else if exec[0] != '%' then DocumentCode(exec[1..])
    else if |exec| == 1 then '\0'
    else if IsDocCode(exec[1]) then exec[1]
    else DocumentCode(exec[2..])
  }

  /** Without backslashes the scan and the parser agree. */
  lemma {:induction false} ScanAgrees(exec: string, q: Quote)
    requires '\\' !in exec && Context(q)
    ensures DocumentCode(exec) != '\0' <==> TakesDocument(exec, q)
    decreases |exec|
  {
    if exec != "" {
      if exec[0] == '%' && |exec| > 1 {
        ScanAgrees(exec[2..], q);
      } else {
        ScanAgrees(exec[1..], NextQuote(q, exec[0]));
      }
    }
  }

  /** The documents one code takes off the front. */
  function Taken(code: char, docs: seq<string>): seq<string> {
    if docs == [] || !IsDocCode(code) then [] else if code == 'f' || code == 'u' then docs[..1] else docs
  }

  lemma CodeTakes(file: DesktopFile, code: char, docs: seq<string>, q: Quote, later: seq<string>)
    requires later <= CodeMeaning(file, code, docs, q).docs
    ensures docs == Taken(code, docs) + CodeMeaning(file, code, docs, q).docs
    ensures CodeMeaning(file, code, Taken(code, docs) + later, q)
         == Reading(CodeMeaning(file, code, docs, q).syms, later)
  {
    var now := Taken(code, docs);
    if now == [] {
      assert now + later == later;
    } else if code == 'f' || code == 'u' {
      assert (now + later)[0] == docs[0] && (now + later)[1..] == later;
    } else {
      assert now + later == docs;
    }
  }

  /** A pass takes documents off the front, and at least one if there are any and the parser meets a document
      code; otherwise none. What it means does not depend on the documents it leaves. */
  lemma {:induction false} PassTakes(file: DesktopFile, exec: string, docs: seq<string>, q: Quote)
    returns (given: seq<string>)
    ensures docs == given + Meaning(file, exec, docs, q).docs
    ensures given != [] <==> docs != [] && TakesDocument(exec, q)
    ensures Meaning(file, exec, given, q) == Reading(Meaning(file, exec, docs, q).syms, [])
    decreases |exec|
  {
    hide CodeMeaning, SymsOf;
    given := [];
    if exec != "" {
      if Context(q) && exec[0] == '%' && |exec| > 1 {
        var first := CodeMeaning(file, exec[1], docs, q);
        var later := PassTakes(file, exec[2..], first.docs, q);
        CodeTakes(file, exec[1], docs, q, later);
        given := Taken(exec[1], docs) + later;
      } else {
        given := PassTakes(file, exec[1..], docs, NextQuote(q, exec[0]));
      }
    }
  }

  // ----- where the documents are in the command

  /** Texts with a document between each two. */
  function Interleaved(gaps: seq<seq<Sym>>, docs: seq<string>): seq<Sym>
    requires |gaps| == |docs| + 1
  {
    if docs == [] then gaps[0] else gaps[0] + Literal(docs[0]) + Interleaved(gaps[1..], docs[1..])
  }

  /** The text ends with a blank. */
  predicate EndsBlank(text: seq<Sym>) {
    text != [] && (text[|text| - 1] == Plain(' ') || text[|text| - 1] == Quoted(' '))
  }

  function Before(text: seq<Sym>, gaps: seq<seq<Sym>>): (r: seq<seq<Sym>>)
    requires gaps != []
    ensures |r| == |gaps|
  {
    [text + gaps[0]] + gaps[1..]
  }

  function Blanks(n: nat, q: Quote): (r: seq<seq<Sym>>)
    ensures |r| == n
  {
    if n == 0 then [] else [Shown(" ", q)] + Blanks(n - 1, q)
  }

  /** The texts around the documents a pass gives out. They depend on how many documents there are, and on nothing
      else about them. */
  function Gaps(file: DesktopFile, exec: string, n: nat, q: Quote): (r: seq<seq<Sym>>)
    ensures r != []
    decreases |exec|
  {
    if exec == "" then [[]]
    else if Context(q) && exec[0] == '%' && |exec| > 1 then
      if exec[1] == 'F' || exec[1] == 'U' then Blanks(n, q) + Gaps(file, exec[2..], 0, q)
      else if exec[1] == 'f' || exec[1] == 'u' then
        if n == 0 then Gaps(file, exec[2..], 0, q) else [Shown(" ", q)] + Gaps(file, exec[2..], n - 1, q)
      else Before(CodeMeaning(file, exec[1], [], q).syms, Gaps(file, exec[2..], n, q))
    else Before(SymsOf(q, exec[0]), Gaps(file, exec[1..], n, NextQuote(q, exec[0])))
  }

  /** The documents stand between the texts, in order, each behind a blank. */
  ghost predicate InPlace(syms: seq<Sym>, gaps: seq<seq<Sym>>, docs: seq<string>) {
    && |gaps| == |docs| + 1 && syms == Interleaved(gaps, docs)
    && forall i :: 0 <= i < |docs| ==> EndsBlank(gaps[i])
  }

  lemma BeforeInPlace(text: seq<Sym>, syms: seq<Sym>, gaps: seq<seq<Sym>>, docs: seq<string>)
    requires InPlace(syms, gaps, docs)
    ensures InPlace(text + syms, Before(text, gaps), docs)
  {
    var g := Before(text, gaps);
    assert g[1..] == gaps[1..];
    if docs != [] {
      SymAssoc(text, gaps[0], Literal(docs[0]));
      SymAssoc(text, gaps[0] + Literal(docs[0]), Interleaved(gaps[1..], docs[1..]));
    }
  }

  lemma DocInPlace(doc: string, q: Quote, syms: seq<Sym>, gaps: seq<seq<Sym>>, docs: seq<string>)
    requires InPlace(syms, gaps, docs)
    ensures InPlace(WithSpace(doc, q) + syms, [Shown(" ", q)] + gaps, [doc] + docs)
  {
    var g := [Shown(" ", q)] + gaps;
    assert g[1..] == gaps && ([doc] + docs)[1..] == docs;
    assert EndsBlank(g[0]);
    forall i | 0 <= i < |docs| + 1 ensures EndsBlank(g[i]) {
      if i > 0 {
        assert g[i] == gaps[i - 1];
      }
    }
  }

  lemma {:induction false} AllInPlace(all: seq<string>, q: Quote, syms: seq<Sym>, gaps: seq<seq<Sym>>)
    requires InPlace(syms, gaps, [])
    ensures InPlace(AllDocs(all, q) + syms, Blanks(|all|, q) + gaps, all)
    decreases |all|
  {
    if all == [] {
      assert [] + syms == syms && [] + gaps == gaps;
    } else {
      AllInPlace(all[1..], q, syms, gaps);
      DocInPlace(all[0], q, AllDocs(all[1..], q) + syms, Blanks(|all| - 1, q) + gaps, all[1..]);
      assert [all[0]] + all[1..] == all;
      SymAssoc(WithSpace(all[0], q), AllDocs(all[1..], q), syms);
      assert [Shown(" ", q)] + (Blanks(|all| - 1, q) + gaps) == Blanks(|all|, q) + gaps;
    }
  }

  /** What a pass over the Exec line gives out is read back, document by document. */
  lemma {:induction false} GivenInPlace(file: DesktopFile, exec: string, docs: seq<string>, q: Quote)
    returns (given: seq<string>)
    ensures docs == given + Meaning(file, exec, docs, q).docs
    ensures InPlace(Meaning(file, exec, docs, q).syms, Gaps(file, exec, |docs|, q), given)
    decreases |exec|
  {
    hide InPlace, SymsOf, CodeMeaning, Before, Blanks;
    if exec == "" {
      given := [];
      EmptyInPlace();
    } else if Context(q) && exec[0] == '%' && |exec| > 1 {
      given := CodeInPlace(file, exec, docs, q);
    } else {
      var q1 := NextQuote(q, exec[0]);
      given := GivenInPlace(file, exec[1..], docs, q1);
      BeforeInPlace(SymsOf(q, exec[0]), Meaning(file, exec[1..], docs, q1).syms,
                    Gaps(file, exec[1..], |docs|, q1), given);
    }
  }

  lemma EmptyInPlace()
    ensures InPlace([], [[]], [])
  {
  }

  lemma {:induction false} CodeInPlace(file: DesktopFile, exec: string, docs: seq<string>, q: Quote)
    returns (given: seq<string>)
    requires Context(q) && |exec| > 1 && exec[0] == '%'
    ensures docs == given + Meaning(file, exec, docs, q).docs
    ensures InPlace(Meaning(file, exec, docs, q).syms, Gaps(file, exec, |docs|, q), given)
    decreases |exec|, 0
  {
    hide InPlace, Before, Blanks, WithSpace;
    var code := exec[1];
    var first := CodeMeaning(file, code, docs, q);
    var rest := Meaning(file, exec[2..], first.docs, q).syms;
    var later := GivenInPlace(file, exec[2..], first.docs, q);
    var gaps := Gaps(file, exec[2..], |first.docs|, q);
    if code == 'F' || code == 'U' {
      given := docs;
      assert later == [];
      AllInPlace(docs, q, rest, gaps);
      assert docs + [] == docs;
    } else if (code == 'f' || code == 'u') && docs != [] {
      given := [docs[0]] + later;
      DocInPlace(docs[0], q, rest, gaps, later);
    } else {
      given := later;
      NoDocCode(file, code, docs, q);
      BeforeInPlace(first.syms, rest, gaps, later);
      BeforeNothing(rest, gaps);
    }
  }

  lemma BeforeNothing(rest: seq<Sym>, gaps: seq<seq<Sym>>)
    requires gaps != []
    ensures [] + rest == rest && Before([], gaps) == gaps
  {
    assert [] + gaps[0] == gaps[0];
  }

  lemma NoDocCode(file: DesktopFile, code: char, docs: seq<string>, q: Quote)
    ensures !IsDocCode(code) ==> CodeMeaning(file, code, docs, q) == Reading(CodeMeaning(file, code, [], q).syms, docs)
  {
  }

  // ----- an Exec line, code by code

  lemma {:induction false} TextIsRead(file: DesktopFile, a: string, rest: string, docs: seq<string>, q: Quote)
    requires '%' !in a
    ensures Meaning(file, a + rest, docs, q)
         == Reading(Read(a, q) + Meaning(file, rest, docs, ReadQuote(a, q)).syms,
                    Meaning(file, rest, docs, ReadQuote(a, q)).docs)
    decreases |a|
  {
    if a == "" {
      assert a + rest == rest && [] + Meaning(file, rest, docs, q).syms == Meaning(file, rest, docs, q).syms;
    } else {
      assert (a + rest)[1..] == a[1..] + rest;
      TextIsRead(file, a[1..], rest, docs, NextQuote(q, a[0]));
      SymAssoc(SymsOf(q, a[0]), Read(a[1..], NextQuote(q, a[0])),
               Meaning(file, rest, docs, ReadQuote(a, q)).syms);
    }
  }

  /** Text without codes is read as it is, up to the first code outside an escape; that adds its blank and document,
      the icon, the name or the source, each literally, or nothing; and the rest follows with the documents left. */
  lemma FirstCode(file: DesktopFile, a: string, code: char, rest: string, docs: seq<string>, q: Quote)
    returns (added: seq<Sym>, left: seq<string>)
    requires '%' !in a && Context(ReadQuote(a, q))
    ensures Meaning(file, a + "%" + [code] + rest, docs, q).syms
         == Read(a, q) + added + Meaning(file, rest, left, ReadQuote(a, q)).syms
    ensures var q1 := ReadQuote(a, q); CodeAdds(file, code, docs, q1, added, left)
  {
    var q1 := ReadQuote(a, q);
    added, left := CodeMeaning(file, code, docs, q1).syms, CodeMeaning(file, code, docs, q1).docs;
    AddsLiterally(file, code, docs, q1);
    hide CodeMeaning, CodeAdds;
    var tail := "%" + [code] + rest;
    assert a + "%" + [code] + rest == a + tail;
    TextIsRead(file, a, tail, docs, q);
    assert tail[0] == '%' && tail[1] == code && tail[2..] == rest;
    SymAssoc(Read(a, q), added, Meaning(file, rest, left, q1).syms);
  }

  /** A percent sign behind an escaping backslash is text, and so is one at the end of the line. */
  lemma PercentIsText(file: DesktopFile, a: string, rest: string, docs: seq<string>, q: Quote)
    requires '%' !in a && (rest == "" || !Context(ReadQuote(a, q)))
    ensures var m := Meaning(file, rest, docs, ReadQuote(a + "%", q));
            Meaning(file, a + ("%" + rest), docs, q) == Reading(Read(a + "%", q) + m.syms, m.docs)
  {
    var tail, q1 := "%" + rest, ReadQuote(a, q);
    TextIsRead(file, a, tail, docs, q);
    ReadAppend(a, "%", q);
    assert tail[0] == '%' && tail[1..] == rest && "%"[1..] == "";
    var m := Meaning(file, rest, docs, NextQuote(q1, '%'));
    SymAssoc(Read(a, q), SymsOf(q1, '%'), m.syms);
  }

  predicate AddsNothing(file: DesktopFile, code: char, docs: seq<string>) {
    || code !in "%FUfuick" || (code in "fuFU" && docs == []) || (code == 'i' && file.icon.None?)
    || (code == 'c' && file.name.None?) || (code == 'k' && file.source.None?)
  }

  /** What a code adds, written out. */
  ghost predicate CodeAdds(file: DesktopFile, code: char, docs: seq<string>, q: Quote, added: seq<Sym>,
                           left: seq<string>)
  {
    && (code == '%' ==> added == Shown("%", q) && left == docs)
    && ((code == 'f' || code == 'u') && docs != [] ==>
          added == Shown(" ", q) + Literal(docs[0]) && left == docs[1..])
    && ((code == 'F' || code == 'U') && |docs| == 1 ==> added == Shown(" ", q) + Literal(docs[0]))
    && (code == 'F' || code == 'U' ==> left == [])
    && (code == 'i' && file.icon.Some? ==> added == Shown("--icon ", q) + Literal(file.icon.value) && left == docs)
    && (code == 'c' && file.name.Some? ==> added == Literal(file.name.value) && left == docs)
    && (code == 'k' && file.source.Some? ==> added == Literal(file.source.value) && left == docs)
    && (AddsNothing(file, code, docs) ==> added == [] && left == docs)
  }

  lemma AddsLiterally(file: DesktopFile, code: char, docs: seq<string>, q: Quote)
    ensures var m := CodeMeaning(file, code, docs, q); CodeAdds(file, code, docs, q, m.syms, m.docs)
  {
    OneDocument(docs, q);
  }

  /** The loop makes progress on documents exactly when the parser meets a document code. */
  lemma ProgressIff(file: DesktopFile, exec: string, docs: seq<string>)
    requires docs != []
    ensures Meaning(file, exec, docs, Bare).docs == docs <==> !TakesDocument(exec, Bare)
  {
    var given := PassTakes(file, exec, docs, Bare);
    var left := Meaning(file, exec, docs, Bare).docs;
    assert |docs| == |given| + |left|;
    assert [] + left == left;
  }

  // ----- launching

  /** How one launch turns out. */
  datatype Outcome = NotParsed | NotSpawned | Running

  datatype Attempt = Attempt(command: string, given: seq<string>)

  function AllGiven(attempts: seq<Attempt>): seq<string> {
    if attempts == [] then [] else AllGiven(attempts[..|attempts| - 1]) + attempts[|attempts| - 1].given
  }

  ghost predicate Faithful(file: DesktopFile, a: Attempt)
    requires file.exec.Some?
  {
    exists inner :: Stands(file, inner, a.command, a.given)
                    && InPlace(Read(inner, Bare), Gaps(file, file.exec.value, |a.given|, Bare), a.given)
  }

  lemma AllGivenSnoc(attempts: seq<Attempt>, a: Attempt)
    ensures AllGiven(attempts + [a]) == AllGiven(attempts) + a.given
  {
    assert (attempts + [a])[..|attempts|] == attempts;
  }

  /** One call of parse_exec in the loop, with the documents it takes off the list. */
  method OnePass(file: DesktopFile, docs: seq<string>)
    returns (command: Option<string>, taken: seq<string>, left: seq<string>)
    ensures docs == taken + left
    ensures command.None? <==> file.exec.None? || file.terminal == Some(None)
    ensures command.Some? ==> Faithful(file, Attempt(command.value, taken))
    ensures file.exec.Some? ==> (taken != [] <==> docs != [] && TakesDocument(file.exec.value, Bare))
  {
    hide InPlace, Gaps, Read, ReadQuote, EndQuote, TakesDocument, Interleaved;
    ghost var inner;
    command, left, inner := ParseExec(file, docs);
    if file.exec.Some? {
      ghost var given := PassTakes(file, file.exec.value, docs, Bare);
      taken := docs[..|docs| - |left|];
      assert taken == given;
      if command.Some? {
        ghost var placed := GivenInPlace(file, file.exec.value, taken, Bare);
        assert placed == taken;
        assert Stands(file, inner, command.value, taken);
      }
    } else {
      taken := [];
    }
  }

  lemma GivenNext(documents: seq<string>, attempts: seq<Attempt>, rest: seq<string>, a: Attempt, left: seq<string>)
    requires documents == AllGiven(attempts) + rest && rest == a.given + left
    ensures documents == AllGiven(attempts + [a]) + left
    ensures documents == AllGiven(attempts) + a.given + left
  {
    AllGivenSnoc(attempts, a);
    assert AllGiven(attempts) + (a.given + left) == AllGiven(attempts) + a.given + left;
  }

  ghost predicate AllFaithful(file: DesktopFile, attempts: seq<Attempt>) {
    file.exec.Some? ==> forall i :: 0 <= i < |attempts| ==> Faithful(file, attempts[i])
  }

  /** The launch numbered n could not be made: no command, one that does not parse, or one that did not run. */
  predicate Failed(file: DesktopFile, attempts: seq<Attempt>, world: nat -> Outcome) {
    file.exec.None? || file.terminal == Some(None) || world(|attempts|) == NotParsed
    || (attempts != [] && world(|attempts| - 1) == NotSpawned)
  }

  /** The do-while loop of egg_desktop_file_launchv, watched for a number of rounds. Each spawned command stands
      for the Exec line with the documents given to it; the documents are given out in order, each to one command;
      and the loop ends when none is left or something failed. As many rounds as there are documents show the end
      if the parser meets a document code; otherwise no document is ever given out, and the loop goes on until
      something fails. `dropped` are documents of a pass whose command could not be built or parsed. */
  method LaunchLoop(file: DesktopFile, documents: seq<string>, world: nat -> Outcome, rounds: nat)
    returns (attempts: seq<Attempt>, success: bool, dropped: seq<string>, rest: seq<string>, ended: bool)
    ensures AllFaithful(file, attempts)
    ensures documents == AllGiven(attempts) + dropped + rest
    ensures success <==> attempts != [] && world(0) == Running
    ensures ended && (attempts == [] || dropped != [] || rest != []) ==> Failed(file, attempts, world)
    ensures !ended ==> |attempts| == rounds && dropped == [] && (rounds == 0 || (rest != [] && success))
    ensures file.exec.Some? && TakesDocument(file.exec.value, Bare) && rounds >= |documents| && rounds > 0 ==> ended
    ensures file.exec.Some? && !TakesDocument(file.exec.value, Bare) ==> rest == documents
  {
    hide TakesDocument, Faithful, AllGiven;
    attempts, success, dropped, rest, ended := [], false, [], documents, false;
    NothingGiven(documents);
    while |attempts| < rounds
      invariant |attempts| <= rounds
      invariant documents == AllGiven(attempts) + rest && dropped == [] && !ended
      invariant attempts != [] ==> rest != [] && world(0) == Running
      invariant file.exec.Some? && !TakesDocument(file.exec.value, Bare) ==> rest == documents
      invariant file.exec.Some? && TakesDocument(file.exec.value, Bare) ==> |attempts| + |rest| <= |documents|
      invariant AllFaithful(file, attempts)
      invariant success <==> attempts != []
      decreases rounds - |attempts|
    {
      var command, taken, left := OnePass(file, rest);
      if command.None? || world(|attempts|) == NotParsed {
        GivenNext(documents, attempts, rest, Attempt("", taken), left);
        dropped, rest, ended := taken, left, true;
        return;
      }
      var attempt := Attempt(command.value, taken);
      GivenNext(documents, attempts, rest, attempt, left);
      var n := |attempts|;
      attempts := attempts + [attempt];
      rest := left;
      if world(n) == NotSpawned {
        NoneDropped(attempts, rest);
        ended := true;
        return;
      }
      success := true;
      if rest == [] {
        NoneDropped(attempts, rest);
        ended := true;
        return;
      }
    }
    NoneDropped(attempts, rest);
  }

  lemma NoneDropped(attempts: seq<Attempt>, rest: seq<string>)
    ensures AllGiven(attempts) + [] + rest == AllGiven(attempts) + rest
  {
  }

  lemma NothingGiven(documents: seq<string>)
    ensures documents == AllGiven([]) + documents
  {
  }

  /** document_code: NUL for a file that takes no documents. */
  function FileDocumentCode(file: DesktopFile): char {
    if file.exec.None? then '\0' else DocumentCode(file.exec.value)
  }

  /** egg_desktop_file_launchv, watched for a number of rounds of its loop: documents for a file without a document
      code are refused. Where nothing fails, the loop ends exactly if there are no documents or the parser, like the
      scan, meets a document code. */
  method Launchv(file: DesktopFile, documents: seq<string>, world: nat -> Outcome, rounds: nat)
    returns (accepted: bool, attempts: seq<Attempt>, success: bool, dropped: seq<string>, rest: seq<string>,
             ended: bool)
    ensures accepted <==> documents == [] || FileDocumentCode(file) != '\0'
    ensures !accepted ==> attempts == [] && !success && rest == documents && ended
    ensures AllFaithful(file, attempts)
    ensures documents == AllGiven(attempts) + dropped + rest
    ensures success <==> attempts != [] && world(0) == Running
    ensures accepted && ended && (attempts == [] || dropped != [] || rest != []) ==> Failed(file, attempts, world)
    ensures accepted && rounds > 0 && rounds >= |documents| && !Failed(file, attempts, world) ==>
              (ended <==> documents == [] || TakesDocument(file.exec.value, Bare))
  {
    hide TakesDocument, Faithful, AllGiven, DocumentCode;
    NothingGiven(documents);
    if documents != [] && FileDocumentCode(file) == '\0' {
      NoneDropped([], documents);
      return false, [], false, [], documents, true;
    }
    accepted := true;
    attempts, success, dropped, rest, ended := LaunchLoop(file, documents, world, rounds);
  }

  /** Without backslashes in its Exec line a file that accepts documents is given them all. */
  lemma AcceptsDocuments(file: DesktopFile)
    requires file.exec.Some? && '\\' !in file.exec.value && FileDocumentCode(file) != '\0'
    ensures TakesDocument(file.exec.value, Bare)
  {
    ScanAgrees(file.exec.value, Bare);
  }

  /** With an escaped code the scan says yes and the parser never takes a document, so that no number of
      passes gets rid of one. */
  lemma EscapedCodeNeverTakes(file: DesktopFile, docs: seq<string>)
    ensures DocumentCode("\\%f") == 'f'
    ensures !TakesDocument("\\%f", Bare)
    ensures Meaning(file, "\\%f", docs, Bare).docs == docs
  {
    var e := "\\%f";
    assert e[1..] == "%f" && e[1..][1..] == "f" && e[1..][1..][1..] == "";
    assert "%f"[2..] == "";
  }
}
