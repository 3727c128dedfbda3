/** The nested, percent-encoded context menu of athena-dropbox.c: GhettoURLDecode and athena_dropbox_parse_menu. */
module Menu {
  import opened Text

  // ----- percent decoding (section 2.1 of RFC 3986)

  predicate IsHex(c: char) {
    '0' <= c <= '9' || 'a' <= c <= 'f' || 'A' <= c <= 'F'
  }

  function ToLower(c: char): char {
    if 'A' <= c <= 'Z' then (c as int + 32) as char else c
  }

  /** from_hex, which takes any character. */
  function FromHex(c: char): (v: int)
    ensures IsHex(c) ==> 0 <= v < 16
  {
    if '0' <= c <= '9' then c as int - '0' as int else ToLower(c) as int - 'a' as int + 10
  }

  /** The bitwise or of two numbers. */
  function Or(a: nat, b: nat): nat {
    if a == 0 then b else if b == 0 then a
    else 2 * Or(a / 2, b / 2) + (if a % 2 == 1 || b % 2 == 1 then 1 else 0)
  }

  /** The byte `from_hex (a) << 4 | from_hex (b)` ends up as. */
  function DecodedByte(a: char, b: char): char {
    (Or(16 * FromHex(a) % 256, FromHex(b) % 256) % 256) as char
  }

  lemma OrNibbles(h: nat, l: nat)
    requires h < 16 && l < 16
    ensures Or(16 * h, l) == 16 * h + l
  {
    OrZero(h);
    hide Or;
    var l1 := l / 2;
    var l2 := l1 / 2;
    var l3 := l2 / 2;
    OrBit(8 * h, l);
    OrBit(4 * h, l1);
    OrBit(2 * h, l2);
    OrBit(h, l3);
    assert l3 / 2 == 0;
  }

  lemma OrZero(a: nat)
    ensures Or(a, 0) == a
  {
  }

  lemma OrBit(a: nat, b: nat)
    ensures Or(2 * a, b) == 2 * Or(a, b / 2) + b % 2
  {
  }

  /** An escape of two hex digits stands for the byte they denote. */
  lemma HexEscape(a: char, b: char)
    requires IsHex(a) && IsHex(b)
    ensures DecodedByte(a, b) == (16 * FromHex(a) + FromHex(b)) as char
  {
    hide Or, FromHex;
    OrNibbles(FromHex(a), FromHex(b));
  }

  /** The value of each of the 22 hex digits. */
  lemma DigitValues(c: char)
    ensures c in "0123456789" ==> FromHex(c) == c as int - 48
    ensures c == 'a' || c == 'A' ==> FromHex(c) == 10
    ensures c == 'b' || c == 'B' ==> FromHex(c) == 11
    ensures c == 'c' || c == 'C' ==> FromHex(c) == 12
    ensures c == 'd' || c == 'D' ==> FromHex(c) == 13
    ensures c == 'e' || c == 'E' ==> FromHex(c) == 14
    ensures c == 'f' || c == 'F' ==> FromHex(c) == 15
    ensures IsHex(c) <==> c in "0123456789abcdefABCDEF"
  {
    var digits, all := "0123456789", "0123456789abcdefABCDEF";
    if '0' <= c <= '9' {
      assert digits[c as int - 48] == c && all[c as int - 48] == c;
    } else if 'a' <= c <= 'f' {
      assert all[c as int - 97 + 10] == c;
    } else if 'A' <= c <= 'F' {
      assert all[c as int - 65 + 16] == c;
    }
  }

  /** Every percent sign that starts an escape has two characters behind it. */
  predicate EscapesComplete(s: string)
    decreases |s|
  {
    if s == "" then true
    else if s[0] != '%' then EscapesComplete(s[1..])
    else |s| >= 3 && EscapesComplete(s[3..])
  }

  /** Where the decoder's read position first is at the terminator of the string, or beyond it. */
  function ReadEnd(s: string, i: nat): nat
    decreases |s| - i
  {
    if i >= |s| then i else ReadEnd(s, i + if s[i] == '%' then 3 else 1)
  }

  /** The decoder meets the terminator exactly if the escapes are complete; otherwise it steps over it. */
  lemma {:induction false} ReadEndIff(s: string, i: nat)
    requires i <= |s|
    ensures ReadEnd(s, i) == |s| <==> EscapesComplete(s[i..])
    decreases |s| - i
  {
    if i < |s| {
      var t := s[i..];
      var k := if s[i] == '%' then 3 else 1;
      if i + k <= |s| {
        assert t[k..] == s[i + k..];
        ReadEndIff(s, i + k);
      }
    }
  }

  function Decode(s: string): (r: string)
    requires EscapesComplete(s)
    ensures |r| <= |s|
    decreases |s|
  {
    if s == "" then ""
    else if s[0] != '%' then [s[0]] + Decode(s[1..])
    else [DecodedByte(s[1], s[2])] + Decode(s[3..])
  }

  lemma CStringCut(d: string, rest: string)
    ensures CString(d + ['\0'] + rest) == CString(d)
  {
    var s := d + ['\0'] + rest;
    if d != "" && d[0] != '\0' {
      CStringCut(d[1..], rest);
      assert s[1..] == d[1..] + ['\0'] + rest;
    }
  }

  /** One round of the decoder at position i. */
  lemma DecodeStep(s: string, i: nat)
    requires i < |s| && EscapesComplete(s[i..])
    ensures var k := if s[i] == '%' then 3 else 1;
            i + k <= |s| && EscapesComplete(s[i + k..]) && |Decode(s[i..])| == 1 + |Decode(s[i + k..])|
            && Decode(s[i..]) == [DecodedChar(s, i)] + Decode(s[i + k..])
  {
    var t := s[i..];
    assert t[1..] == s[i + 1..];
    if t[0] == '%' {
      assert t[3..] == s[i + 3..] && t[1] == s[i + 1] && t[2] == s[i + 2];
    }
  }

  lemma NothingDecodes()
    ensures EscapesComplete("") && Decode("") == ""
  {
  }

  function DecodedChar(s: string, i: nat): char
    requires i < |s|
    requires s[i] == '%' ==> i + 2 < |s|
  {
    if s[i] == '%' then DecodedByte(s[i + 1], s[i + 2]) else s[i]
  }

  /** GhettoURLDecode with out == in: the buffer holds the C string `s`. At most n characters are written,
      none past n, and with n == strlen the buffer always ends up holding the decoded string. */
  method GhettoURLDecode(buf: array<char>, n: nat, ghost s: string) returns (len: int)
    requires NulFree(s) && |s| < buf.Length && buf[..|s|] == s && buf[|s|] == '\0'
    requires EscapesComplete(s)
    modifies buf
    ensures len == if |Decode(s)| < n then |Decode(s)| else -1
    ensures forall k :: 0 <= k < n && k < |Decode(s)| ==> buf[k] == Decode(s)[k]
    ensures |Decode(s)| < n ==> buf[|Decode(s)|] == '\0'
    ensures forall k :: n <= k < buf.Length ==> buf[k] == old(buf[k])
    ensures n == |s| ==> CString(buf[..]) == CString(Decode(s))
  {
    hide Decode, EscapesComplete, DecodedByte, CString;
    var out, inp := 0, 0;
    assert s[0..] == s;
    NothingDecodes();
    while out < n && buf[inp] != '\0'
      invariant 0 <= out <= inp <= |s| && out <= n
      invariant forall k :: inp <= k < buf.Length ==> buf[k] == old(buf[k])
      invariant forall k :: n <= k < buf.Length ==> buf[k] == old(buf[k])
      invariant forall k :: inp <= k < |s| ==> buf[k] == s[k]
      invariant EscapesComplete(s[inp..]) && |Decode(s)| == out + |Decode(s[inp..])|
      invariant Decode(s)[out..] == Decode(s[inp..])
      invariant forall k :: 0 <= k < out ==> buf[k] == Decode(s)[k]
      decreases |s| - inp
    {
      DecodeStep(s, inp);
      assert Decode(s)[out] == DecodedChar(s, inp) && Decode(s)[out + 1..] == Decode(s)[out..][1..];
      if buf[inp] == '%' {
        buf[out] := DecodedByte(buf[inp + 1], buf[inp + 2]);
        inp := inp + 3;
      } else {
        buf[out] := buf[inp];
        inp := inp + 1;
      }
      out := out + 1;
    }
    if out < n {
      assert inp == |s|;
      buf[out] := '\0';
      len := out;
    } else {
      len := -1;
      if n == |s| {
        assert inp == |s| && s[inp..] == "";
      }
    }
    if n == |s| {
      assert |Decode(s)| == out && buf[out] == '\0';
      assert buf[..] == Decode(s) + ['\0'] + buf[out + 1..];
      CStringCut(Decode(s), buf[out + 1..]);
    }
  }

  // ----- the menu format

  datatype Item =
    | Leaf(action: string, text: string, tip: string, verb: string, greyed: bool)
    | Sub(action: string, text: string, children: seq<Item>)

  function Leaves(items: seq<Item>): nat {
    if items == [] then 0
    else
      (match items[0] case Leaf(_, _, _, _, _) => 1 case Sub(_, _, children) => Leaves(children)) + Leaves(items[1..])
  }

  /** A field after decoding in place with n = strlen. */
  function Field(s: string): (r: string)
    requires EscapesComplete(s)
    ensures |r| <= |s| && NulFree(r)
  {
    CString(Decode(s))
  }

  function Weight(options: seq<string>): nat {
    if options == [] then 0 else |options[0]| + 1 + Weight(options[1..])
  }

  lemma {:induction false} WeightOfFields(s: string, sep: char)
    ensures Weight(Fields(s, sep)) == |s| + 1
    decreases |s|
  {
    if sep in s {
      WeightOfFields(s[IndexOf(s, sep) + 1..], sep);
    } else {
      assert Weight([s][1..]) == 0;
    }
  }

  lemma {:induction false} FieldsMaxLength(s: string, sep: char, limit: nat)
    ensures Weight(FieldsMax(s, sep, limit)) == |s| + 1
    decreases limit
  {
    if limit > 1 && sep in s {
      FieldsMaxLength(s[IndexOf(s, sep) + 1..], sep, limit - 1);
    } else {
      assert Weight([s][1..]) == 0;
    }
  }

  /** The three fields of a valid option. */
  function Info(option: string): (r: seq<string>)
    ensures |r| == 3 ==> |r[1]| + 2 <= |option|
  {
    var r := SplitMax(option, '~', 3);
    if |r| == 3 then
      FieldsMaxLength(option, '~', 3);
      assert Weight(r) == |r[0]| + 1 + Weight(r[1..]) && Weight(r[1..]) >= |r[1..][0]| + 1;
      r
    else r
  }

  /** The submenu options inside a decoded field weigh less than the option they came from. */
  lemma SubmenuIsSmaller(options: seq<string>)
    requires options != [] && |Info(options[0])| == 3 && EscapesComplete(Info(options[0])[1])
    ensures Weight(Split(Field(Info(options[0])[1]), '|')) < Weight(options)
  {
    WeightOfFields(Field(Info(options[0])[1]), '|');
  }

  /** Every field the parser decodes, at any depth, has only complete escapes. */
  ghost predicate Readable(options: seq<string>)
    decreases Weight(options)
  {
    options == [] ||
    (Readable(options[1..]) &&
     var info := Info(options[0]);
     |info| == 3 ==>
       EscapesComplete(info[0]) && EscapesComplete(info[1]) && EscapesComplete(info[2]) &&
       ('~' in Field(info[1]) ==>
         (SubmenuIsSmaller(options);
          Readable(Split(Field(info[1]), '|')))))
  }

  /** What one option with three readable fields stands for. */
  ghost function ParseInfo(options: seq<string>, prefix: string): Item
    requires options != [] && Readable(options) && |Info(options[0])| == 3
    decreases Weight(options), 0
  {
    var info := Info(options[0]);
    var name, inner, verb := Field(info[0]), Field(info[1]), Field(info[2]);
    if '~' in inner then
      SubmenuIsSmaller(options);
      Sub(prefix + name + "::", name, Parse(Split(inner, '|'), prefix + name + "::"))
    else if name != "" && name[0] == '!' then Leaf(prefix + verb, name[1..], inner, verb, true)
    else Leaf(prefix + verb, name, inner, verb, false)
  }

  /** The items a list of options stands for; an option without three fields is skipped. */
  ghost function Parse(options: seq<string>, prefix: string): seq<Item>
    requires Readable(options)
    decreases Weight(options), 1
  {
    if options == [] then []
    else (if |Info(options[0])| == 3 then [ParseInfo(options, prefix)] else []) + Parse(options[1..], prefix)
  }

  // ----- which options count

  /** An option counts exactly when it holds two tildes; further ones belong to the verb. */
  lemma OptionCounts(option: string)
    ensures |Info(option)| == 3 <==> '~' in option && '~' in option[IndexOf(option, '~') + 1..]
    ensures |Info(option)| == 3 ==>
              var info := Info(option);
              '~' !in info[0] && '~' !in info[1] && option == info[0] + ['~'] + (info[1] + ['~'] + info[2])
  {
    if '~' in option {
      var a, rest := FirstField(option, 3);
      if '~' in rest {
        var b, c := FirstField(rest, 2);
        hide IndexOf;
      }
    }
  }

  lemma FirstField(s: string, limit: nat) returns (first: string, rest: string)
    requires limit > 1 && '~' in s
    ensures s == first + ['~'] + rest && '~' !in first && rest == s[IndexOf(s, '~') + 1..]
    ensures FieldsMax(s, '~', limit) == [first] + FieldsMax(rest, '~', limit - 1)
  {
    var i := IndexOf(s, '~');
    first, rest := s[..i], s[i + 1..];
  }

  /** The options do not influence one another. */
  lemma {:induction false} ParsePieces(a: seq<string>, b: seq<string>, prefix: string)
    requires Readable(a) && Readable(b)
    ensures Readable(a + b) && Parse(a + b, prefix) == Parse(a, prefix) + Parse(b, prefix)
  {
    hide Info, ParseInfo, Readable, Parse;
    if a == [] {
      assert a + b == b;
      ParseNothing(prefix);
    } else {
      assert a + b == [a[0]] + (a[1..] + b) && a == [a[0]] + a[1..];
      ParseFirst(a[0], a[1..], [], prefix);
      ParsePieces(a[1..], b, prefix);
      ParseFirst(a[0], a[1..], a[1..] + b, prefix);
      ItemsAssoc(FirstItems(a, prefix), Parse(a[1..], prefix), Parse(b, prefix));
    }
  }

  ghost function FirstItems(options: seq<string>, prefix: string): seq<Item>
    requires options != [] && Readable(options)
  {
    if |Info(options[0])| == 3 then [ParseInfo(options, prefix)] else []
  }

  lemma ParseNothing(prefix: string)
    ensures Readable([]) && Parse([], prefix) == []
  {
  }

  lemma ParseFirst(option: string, others: seq<string>, more: seq<string>, prefix: string)
    requires Readable([option] + others)
    ensures Readable(others) && Parse([option] + others, prefix)
                             == FirstItems([option] + others, prefix) + Parse(others, prefix)
    ensures Readable(more) ==>
              && Readable([option] + more)
              && FirstItems([option] + more, prefix) == FirstItems([option] + others, prefix)
              && Parse([option] + more, prefix) == FirstItems([option] + more, prefix) + Parse(more, prefix)
  {
    hide Info, Field;
    assert ([option] + others)[1..] == others && ([option] + more)[1..] == more;
  }

  lemma ItemsAssoc(a: seq<Item>, b: seq<Item>, c: seq<Item>)
    ensures a + (b + c) == a + b + c
  {
  }

  // ----- the code

  class AthenaMenu {
    var items: seq<Item>

    constructor ()
      ensures items == []
    {
      items := [];
    }

    method AppendItem(item: Item)
      modifies this
      ensures items == old(items) + [item]
    {
      items := items + [item];
    }
  }

  /** GhettoURLDecode (field, field, strlen (field)) on a string of its own. */
  method DecodeField(s: string) returns (r: string)
    requires NulFree(s) && EscapesComplete(s)
    ensures r == Field(s)
  {
    var buf := new char[|s| + 1](i => if 0 <= i < |s| then s[i] else '\0');
    assert buf[..|s|] == s;
    var _ := GhettoURLDecode(buf, |s|, s);
    r := CString(buf[..]);
  }

  ghost predicate NulFreeAll(options: seq<string>) {
    forall i :: 0 <= i < |options| ==> NulFree(options[i])
  }

  lemma {:induction false} FieldsNulFree(s: string, sep: char)
    requires NulFree(s)
    ensures NulFreeAll(Fields(s, sep))
    decreases |s|
  {
    if sep in s {
      FieldsNulFree(s[IndexOf(s, sep) + 1..], sep);
    }
  }

  lemma {:induction false} FieldsMaxNulFree(s: string, sep: char, limit: nat)
    requires NulFree(s)
    ensures NulFreeAll(FieldsMax(s, sep, limit))
    decreases limit
  {
    if limit > 1 && sep in s {
      FieldsMaxNulFree(s[IndexOf(s, sep) + 1..], sep, limit - 1);
    }
  }

  lemma InfoNulFree(option: string)
    requires NulFree(option)
    ensures NulFreeAll(Info(option))
  {
    FieldsMaxNulFree(option, '~', 3);
  }

  lemma SplitNulFree(s: string, sep: char)
    requires NulFree(s)
    ensures NulFreeAll(Split(s, sep))
  {
    FieldsNulFree(s, sep);
  }

  lemma NextOption(options: seq<string>, i: nat, prefix: string)
    requires i < |options| && Readable(options[i..])
    ensures options[i..][0] == options[i] && options[i..][1..] == options[i + 1..] && Readable(options[i + 1..])
    ensures var first := if |Info(options[i])| == 3 then [ParseInfo(options[i..], prefix)] else [];
            Parse(options[i..], prefix) == first + Parse(options[i + 1..], prefix)
    ensures Leaves(Parse(options[i..], prefix))
         == (if |Info(options[i])| == 3 then Leaves([ParseInfo(options[i..], prefix)]) else 0)
            + Leaves(Parse(options[i + 1..], prefix))
  {
    assert options[i..][1..] == options[i + 1..];
    if |Info(options[i])| == 3 {
      var item, rest := ParseInfo(options[i..], prefix), Parse(options[i + 1..], prefix);
      assert ([item] + rest)[1..] == rest && [item][1..] == [];
    } else {
      assert [] + Parse(options[i + 1..], prefix) == Parse(options[i + 1..], prefix);
    }
  }

  lemma NothingParses(prefix: string)
    ensures Parse([], prefix) == [] && Leaves([]) == 0
  {
  }

  /** athena_dropbox_parse_menu: appends the items to the menu and returns the number of leaves. */
  method ParseMenu(options: seq<string>, menu: AthenaMenu, prefix: string) returns (ret: nat)
    requires Readable(options) && NulFreeAll(options)
    modifies menu
    ensures menu.items == old(menu.items) + Parse(options, prefix)
    ensures ret == Leaves(Parse(options, prefix))
    decreases Weight(options), 1
  {
    hide Info, Readable, Field, Leaves, Parse;
    NothingParses(prefix);
    ret := 0;
    var i := 0;
    ghost var done: seq<Item> := [];
    assert options[0..] == options;
    while i < |options|
      invariant 0 <= i <= |options| && Readable(options[i..])
      invariant Weight(options[i..]) <= Weight(options)
      invariant menu.items == old(menu.items) + done
      invariant Parse(options, prefix) == done + Parse(options[i..], prefix)
      invariant ret + Leaves(Parse(options[i..], prefix)) == Leaves(Parse(options, prefix))
    {
      NextOption(options, i, prefix);
      if |Info(options[i])| == 3 {
        var item, leaves := ParseOption(options[i..], options[i], prefix);
        menu.AppendItem(item);
        ret := ret + leaves;
        assert done + [item] + Parse(options[i + 1..], prefix) == done + ([item] + Parse(options[i + 1..], prefix));
        done := done + [item];
      }
      i := i + 1;
    }
    assert options[i..] == [] && done + [] == done;
  }

  /** The body of the loop for an option with three fields. */
  method ParseOption(ghost options: seq<string>, option: string, prefix: string) returns (item: Item, leaves: nat)
    requires Readable(options) && NulFreeAll(options) && options != [] && option == options[0] && |Info(option)| == 3
    ensures item == ParseInfo(options, prefix) && leaves == Leaves([item])
    decreases Weight(options), 0
  {
    hide Info, Field, EscapesComplete, Weight, Parse, Split;
    var optionInfo := Info(option);
    InfoNulFree(option);
    var itemName := DecodeField(optionInfo[0]);
    var verb := DecodeField(optionInfo[2]);
    var itemInner := DecodeField(optionInfo[1]);
    if '~' in itemInner {
      SubmenuIsSmaller(options);
      SplitNulFree(itemInner, '|');
      var suboptions := Split(itemInner, '|');
      var submenu := new AthenaMenu();
      leaves := ParseMenu(suboptions, submenu, prefix + itemName + "::");
      item := Sub(prefix + itemName + "::", itemName, submenu.items);
    } else {
      var greyed := itemName != "" && itemName[0] == '!';
      item := Leaf(prefix + verb, if greyed then itemName[1..] else itemName, itemInner, verb, greyed);
      leaves := 1;
    }
  }

  // ----- the other end: encoding a menu

  datatype Tree =
    | TLeaf(name: string, tip: string, verb: string, greyed: bool)
    | TSub(name: string, verb: string, children: seq<Tree>)    // the verb is lost

  function EscapeChar(c: char): string {
    if c == '%' then "%25" else if c == '~' then "%7e" else if c == '|' then "%7c" else [c]
  }

  function Escape(s: string): string {
    if s == "" then "" else EscapeChar(s[0]) + Escape(s[1..])
  }

  function Encode(t: Tree): string
    decreases t
  {
    match t
    case TLeaf(name, tip, verb, greyed) =>
      Join([Escape(if greyed then "!" + name else name), Escape(tip), Escape(verb)], '~')
    case TSub(name, verb, children) =>
      Join([Escape(name), Escape(Join(EncodeAll(children), '|')), Escape(verb)], '~')
  }

  function EncodeAll(ts: seq<Tree>): (r: seq<string>)
    ensures |r| == |ts|
    decreases ts
  {
    if ts == [] then [] else [Encode(ts[0])] + EncodeAll(ts[1..])
  }

  /** The menu item a tree should become below a given action prefix. */
  function Expected(t: Tree, prefix: string): Item
    decreases t
  {
    match t
    case TLeaf(name, tip, verb, greyed) => Leaf(prefix + verb, name, tip, verb, greyed)
    case TSub(name, _, children) => Sub(prefix + name + "::", name, ExpectedAll(children, prefix + name + "::"))
  }

  function ExpectedAll(ts: seq<Tree>, prefix: string): (r: seq<Item>)
    ensures |r| == |ts|
    decreases ts
  {
    if ts == [] then [] else [Expected(ts[0], prefix)] + ExpectedAll(ts[1..], prefix)
  }

  ghost predicate NulFreeTree(t: Tree)
    decreases t
  {
    match t
    case TLeaf(name, tip, verb, _) => NulFree(name) && NulFree(tip) && NulFree(verb)
    case TSub(name, verb, children) => NulFree(name) && NulFree(verb) && NulFreeForest(children)
  }

  ghost predicate NulFreeForest(ts: seq<Tree>)
    decreases ts
  {
    ts == [] || (NulFreeTree(ts[0]) && NulFreeForest(ts[1..]))
  }

  /** The format can express the tree: no tooltip looks like a submenu, no submenu is empty, and only
      greyed entries show an exclamation mark up front. */
  predicate Expressible(t: Tree)
    decreases t
  {
    match t
    case TLeaf(name, tip, _, greyed) => '~' !in tip && (greyed || name == "" || name[0] != '!')
    case TSub(_, _, children) => children != [] && ExpressibleAll(children)
  }

  predicate ExpressibleAll(ts: seq<Tree>)
    decreases ts
  {
    ts == [] || (Expressible(ts[0]) && ExpressibleAll(ts[1..]))
  }

  // ----- the round trip

  lemma EscapeCharDecodes(c: char, rest: string)
    requires EscapesComplete(rest)
    ensures EscapesComplete(EscapeChar(c) + rest) && Decode(EscapeChar(c) + rest) == [c] + Decode(rest)
  {
    var s := EscapeChar(c) + rest;
    if |EscapeChar(c)| == 3 {
      HexEscape(s[1], s[2]);
      hide DecodedByte;
      assert s[3..] == rest && FromHex('2') == 2 && FromHex('5') == 5 && FromHex('7') == 7
             && FromHex('e') == 14 && FromHex('c') == 12;
      assert (16 * 2 + 5) as char == '%' && (16 * 7 + 14) as char == '~' && (16 * 7 + 12) as char == '|';
    } else {
      assert s[1..] == rest;
    }
  }

  lemma {:induction false} EscapeDecodes(s: string)
    ensures EscapesComplete(Escape(s)) && Decode(Escape(s)) == s
    ensures '~' !in Escape(s) && '|' !in Escape(s)
  {
    if s != "" {
      EscapeDecodes(s[1..]);
      EscapeCharDecodes(s[0], Escape(s[1..]));
    }
  }

  lemma EscapedField(s: string)
    requires NulFree(s)
    ensures EscapesComplete(Escape(s)) && Field(Escape(s)) == s
  {
    EscapeDecodes(s);
    CStringOfNulFree(s);
  }

  lemma ThreeFields(a: string, b: string, c: string)
    requires '~' !in a && '~' !in b
    ensures Info(Join([a, b, c], '~')) == [a, b, c]
    ensures '~' in Join([a, b, c], '~')
    ensures '|' !in a && '|' !in b && '|' !in c ==> '|' !in Join([a, b, c], '~')
  {
    var t := b + ['~'] + c;
    var s := a + ['~'] + t;
    assert [a, b, c][1..] == [b, c] && [b, c][1..] == [c];
    assert Join([b, c], '~') == t && Join([a, b, c], '~') == s;
    IndexOfAfter(a, '~', t);
    IndexOfAfter(b, '~', c);
    assert s[..|a|] == a && s[|a| + 1..] == t && t[..|b|] == b && t[|b| + 1..] == c;
    assert FieldsMax(t, '~', 2) == [b] + FieldsMax(c, '~', 1);
    assert FieldsMax(s, '~', 3) == [a] + FieldsMax(t, '~', 2);
  }

  /** The three fields an encoded tree splits into, and what they decode to. */
  function Parts(t: Tree): seq<string> {
    match t
    case TLeaf(name, tip, verb, greyed) => [if greyed then "!" + name else name, tip, verb]
    case TSub(name, verb, children) => [name, Join(EncodeAll(children), '|'), verb]
  }

  lemma EncodedParts(t: Tree)
    requires NulFreeTree(t)
    ensures Encode(t) == Join([Escape(Parts(t)[0]), Escape(Parts(t)[1]), Escape(Parts(t)[2])], '~')
    ensures Info(Encode(t)) == [Escape(Parts(t)[0]), Escape(Parts(t)[1]), Escape(Parts(t)[2])]
    ensures '~' in Encode(t) && '|' !in Encode(t)
  {
    var p := Parts(t);
    EscapeDecodes(p[0]);
    EscapeDecodes(p[1]);
    EscapeDecodes(p[2]);
    ThreeFields(Escape(p[0]), Escape(p[1]), Escape(p[2]));
  }

  lemma {:induction false} EscapeNulFree(s: string)
    ensures NulFree(Escape(s)) <==> NulFree(s)
  {
    if s != "" {
      EscapeNulFree(s[1..]);
      assert s == [s[0]] + s[1..];
    }
  }

  lemma {:induction false} EncodeNulFree(t: Tree)
    requires NulFreeTree(t)
    ensures NulFree(Encode(t)) && NulFree(Parts(t)[1])
    decreases t
  {
    var p := Parts(t);
    if t.TSub? {
      EncodeAllNulFree(t.children);
      JoinContains(EncodeAll(t.children), '|', '\0');
    }
    EncodedParts(t);
    EscapeNulFree(p[0]);
    EscapeNulFree(p[1]);
    EscapeNulFree(p[2]);
    assert NulFree(Encode(t)) by {
      hide Escape, Encode, Parts;
      JoinContains([Escape(p[0]), Escape(p[1]), Escape(p[2])], '~', '\0');
    }
  }

  lemma {:induction false} EncodeAllNulFree(ts: seq<Tree>)
    requires NulFreeForest(ts)
    ensures forall e :: e in EncodeAll(ts) ==> NulFree(e)
    decreases ts
  {
    if ts != [] {
      EncodeNulFree(ts[0]);
      EncodeAllNulFree(ts[1..]);
    }
  }

  /** The second field of a submenu with children is recognised, and splits into the encoded children. */
  lemma {:induction false} ChildrenSplit(ts: seq<Tree>)
    requires NulFreeForest(ts) && ts != []
    ensures '~' in Join(EncodeAll(ts), '|') && Split(Join(EncodeAll(ts), '|'), '|') == EncodeAll(ts)
  {
    EncodedParts(ts[0]);
    EncodedBarFree(ts);
    FieldsOfJoin(EncodeAll(ts), '|');
    JoinContains(EncodeAll(ts), '|', '~');
    assert EncodeAll(ts)[0] in EncodeAll(ts);
  }

  lemma {:induction false} EncodedBarFree(ts: seq<Tree>)
    requires NulFreeForest(ts)
    ensures forall e :: e in EncodeAll(ts) ==> '|' !in e
    decreases ts
  {
    if ts != [] {
      EncodedParts(ts[0]);
      EncodedBarFree(ts[1..]);
    }
  }

  /** What the parser sees of the first of the encoded trees. */
  lemma HeadFields(ts: seq<Tree>)
    requires ts != [] && NulFreeForest(ts)
    ensures var o, p := EncodeAll(ts), Parts(ts[0]);
            && o[0] == Encode(ts[0]) && o[1..] == EncodeAll(ts[1..]) && |Info(o[0])| == 3
            && EscapesComplete(Info(o[0])[0]) && Field(Info(o[0])[0]) == p[0]
            && EscapesComplete(Info(o[0])[1]) && Field(Info(o[0])[1]) == p[1]
            && EscapesComplete(Info(o[0])[2]) && Field(Info(o[0])[2]) == p[2]
  {
    hide Info, Field, EscapesComplete, Encode, Escape;
    var t := ts[0];
    EncodedParts(t);
    EncodeNulFree(t);
    EscapedField(Parts(t)[0]);
    EscapedField(Parts(t)[1]);
    EscapedField(Parts(t)[2]);
  }

  lemma {:induction false} ExpressibleIsReadable(ts: seq<Tree>)
    requires NulFreeForest(ts) && ExpressibleAll(ts)
    ensures Readable(EncodeAll(ts))
    decreases ts
  {
    if ts != [] {
      HeadFields(ts);
      ExpressibleIsReadable(ts[1..]);
      if ts[0].TSub? {
        ChildrenSplit(ts[0].children);
        ExpressibleIsReadable(ts[0].children);
      }
    }
  }

  lemma ConsEq(x: Item, xs: seq<Item>, y: Item, ys: seq<Item>)
    ensures [x] + xs == [y] + ys <==> x == y && xs == ys
  {
    assert ([x] + xs)[0] == x && ([y] + ys)[0] == y && ([x] + xs)[1..] == xs && ([y] + ys)[1..] == ys;
  }

  lemma {:induction false} HeadRoundTrip(ts: seq<Tree>, prefix: string)
    requires ts != [] && NulFreeForest(ts) && Readable(EncodeAll(ts)) && |Info(EncodeAll(ts)[0])| == 3
    ensures ParseInfo(EncodeAll(ts), prefix) == Expected(ts[0], prefix) <==> Expressible(ts[0])
    decreases ts, 0
  {
    HeadFields(ts);
    var t := ts[0];
    if t.TSub? && t.children != [] {
      ChildrenSplit(t.children);
      ForestRoundTrip(t.children, prefix + t.name + "::");
    }
  }

  lemma {:induction false} ForestRoundTrip(ts: seq<Tree>, prefix: string)
    requires NulFreeForest(ts) && Readable(EncodeAll(ts))
    ensures Parse(EncodeAll(ts), prefix) == ExpectedAll(ts, prefix) <==> ExpressibleAll(ts)
    decreases ts, 1
  {
    if ts != [] {
      HeadFields(ts);
      HeadRoundTrip(ts, prefix);
      ForestRoundTrip(ts[1..], prefix);
      ConsEq(ParseInfo(EncodeAll(ts), prefix), Parse(EncodeAll(ts[1..]), prefix),
             Expected(ts[0], prefix), ExpectedAll(ts[1..], prefix));
      hide ParseInfo, Expected, Info, Expressible, EncodeAll, Readable;
    }
  }

  /** Parsing an encoded menu rebuilds it, actions included, exactly when the format can express it. */
  lemma MenuRoundTrip(ts: seq<Tree>, prefix: string)
    requires NulFreeForest(ts)
    ensures Readable(EncodeAll(ts)) && Parse(EncodeAll(ts), prefix) == ExpectedAll(ts, prefix) <==> ExpressibleAll(ts)
  {
    if ExpressibleAll(ts) {
      ExpressibleIsReadable(ts);
    }
    if Readable(EncodeAll(ts)) {
      ForestRoundTrip(ts, prefix);
    }
  }

  function TreeLeaves(ts: seq<Tree>): nat {
    if ts == [] then 0
    else
      (match ts[0] case TLeaf(_, _, _, _) => 1 case TSub(_, _, children) => TreeLeaves(children)) + TreeLeaves(ts[1..])
  }

  /** The returned count is the number of leaves of the menu that was encoded. */
  lemma {:induction false} ExpectedLeaves(ts: seq<Tree>, prefix: string)
    ensures Leaves(ExpectedAll(ts, prefix)) == TreeLeaves(ts)
    decreases ts
  {
    if ts != [] {
      ExpectedLeaves(ts[1..], prefix);
      match ts[0]
      case TLeaf(_, _, _, _) =>
      case TSub(name, _, children) => ExpectedLeaves(children, prefix + name + "::");
    }
  }
}
