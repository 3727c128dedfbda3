/** dropbox-client-util.c: the escaping and the argument lines of the Dropbox line protocol. */
module ClientUtil {
  import opened Text

  type Table = map<string, seq<string>>

  class HashTable {
    var entries: Table

    constructor ()
      ensures entries == map[]
    {
      entries := map[];
    }
  }

  // ----- escaping

  function SanitizeChar(c: char): string {
    if c == '\\' then "\\\\" else if c == '\n' then "\\n" else if c == '\t' then "\\t" else [c]
  }

  /** g_strescape with every character exempt except backslash, newline and tab. */
  function Sanitize(a: string): string {
    if a == "" then "" else SanitizeChar(a[0]) + Sanitize(a[1..])
  }

  predicate IsOctal(c: char) {
    '0' <= c <= '7'
  }

  /** How many octal digits g_strcompress takes from the front of s: at most three. */
  function OctalLength(s: string): (n: nat)
    ensures n <= 3 && n <= |s| && forall i :: 0 <= i < n ==> IsOctal(s[i])
  {
    if |s| >= 1 && IsOctal(s[0]) then
      if |s| >= 2 && IsOctal(s[1]) then if |s| >= 3 && IsOctal(s[2]) then 3 else 2 else 1
    else 0
  }

  function OctalValue(s: string): nat
    requires forall i :: 0 <= i < |s| ==> IsOctal(s[i])
  {
    if s == "" then 0
    else
      assert IsOctal(s[|s| - 1]);
      8 * OctalValue(s[..|s| - 1]) + (s[|s| - 1] as int - '0' as int)
  }

  function EscapedChar(c: char): char {
    match c
    case 'b' => 8 as char
    case 'f' => 12 as char
    case 'n' => '\n'
    case 'r' => '\r'
    case 't' => '\t'
    case 'v' => 11 as char
    case _ => c
  }

  /** g_strcompress: octal escapes wrap to a byte, and a trailing backslash ends the text. */
  function Compress(a: string): string
    decreases |a|
  {
    if a == "" then ""
    else if a[0] != '\\' then [a[0]] + Compress(a[1..])
    else if |a| == 1 then ""
    else
      var n := OctalLength(a[1..]);
      if n > 0 then [(OctalValue(a[1..][..n]) % 256) as char] + Compress(a[1 + n..])
      else [EscapedChar(a[1])] + Compress(a[2..])
  }

  function Desanitize(a: string): (r: string)
    ensures NulFree(r)
  {
    CString(Compress(a))
  }

  lemma CompressSanitizedChar(c: char, rest: string)
    ensures Compress(SanitizeChar(c) + rest) == [c] + Compress(rest)
  {
    var s := SanitizeChar(c) + rest;
    if |SanitizeChar(c)| == 2 {
      assert s[2..] == rest && s[1..][0] == s[1];
    } else {
      assert s[1..] == rest;
    }
  }

  lemma {:induction false} CompressSanitized(a: string)
    ensures Compress(Sanitize(a)) == a
  {
    if a != "" {
      CompressSanitizedChar(a[0], Sanitize(a[1..]));
      CompressSanitized(a[1..]);
    }
  }

  /** Only backslash, newline and tab are escaped, each with its own letter. */
  lemma {:induction false} SanitizedSame(a: string)
    requires '\\' !in a && '\n' !in a && '\t' !in a
    ensures Sanitize(a) == a
  {
    if a != "" {
      SanitizedSame(a[1..]);
    }
  }

  lemma {:induction false} SanitizeBoth(a: string, b: string)
    ensures Sanitize(a + b) == Sanitize(a) + Sanitize(b)
  {
    if a == "" {
      assert a + b == b;
    } else {
      assert (a + b)[1..] == a[1..] + b;
      SanitizeBoth(a[1..], b);
      SanitizeAssoc(SanitizeChar(a[0]), Sanitize(a[1..]), Sanitize(b));
    }
  }

  lemma SanitizeAssoc(a: string, b: string, c: string)
    ensures a + (b + c) == a + b + c
  {
  }

  lemma SanitizeThree()
    ensures Sanitize("\\") == "\\\\" && Sanitize("\n") == "\\n" && Sanitize("\t") == "\\t"
  {
    assert "\\"[1..] == "" && "\n"[1..] == "" && "\t"[1..] == "";
  }

  /** What the other side may send: a letter escape, one to three octal digits, or any other character behind a
      backslash. */
  lemma CompressEscapes(c: char, rest: string)
    ensures c == 'b' ==> Compress(['\\', c] + rest) == [8 as char] + Compress(rest)
    ensures c == 'f' ==> Compress(['\\', c] + rest) == [12 as char] + Compress(rest)
    ensures c == 'n' ==> Compress(['\\', c] + rest) == ['\n'] + Compress(rest)
    ensures c == 'r' ==> Compress(['\\', c] + rest) == ['\r'] + Compress(rest)
    ensures c == 't' ==> Compress(['\\', c] + rest) == ['\t'] + Compress(rest)
    ensures c == 'v' ==> Compress(['\\', c] + rest) == [11 as char] + Compress(rest)
    ensures c !in "bfnrtv01234567" ==> Compress(['\\', c] + rest) == [c] + Compress(rest)
  {
    var s := ['\\', c] + rest;
    assert s[1..][0] == c && s[2..] == rest;
  }

  lemma CompressOctal(a: char, b: char, c: char, rest: string)
    requires '0' <= a <= '7' && '0' <= b <= '7' && '0' <= c <= '7'
    ensures Compress(['\\', a, b, c] + rest)
         == [((64 * (a as int - '0' as int) + 8 * (b as int - '0' as int) + (c as int - '0' as int)) % 256) as char]
            + Compress(rest)
  {
    var s := ['\\', a, b, c] + rest;
    assert s[1..][0] == a && s[1..][1] == b && s[1..][2] == c && s[4..] == rest;
    assert s[1..][..3] == [a, b, c];
    assert [a, b, c][..2] == [a, b] && [a, b][..1] == [a] && [a][..0] == [];
    assert OctalValue([a]) == a as int - '0' as int;
    assert OctalValue([a, b]) == 8 * OctalValue([a]) + (b as int - '0' as int);
    assert OctalValue([a, b, c]) == 8 * OctalValue([a, b]) + (c as int - '0' as int);
  }

  /** What one side escapes the other side reads back. */
  lemma {:induction false} SanitizeRoundTrip(a: string)
    requires NulFree(a)
    ensures Desanitize(Sanitize(a)) == a
  {
    CompressSanitized(a);
    CStringOfNulFree(a);
  }

  /** Escaped text never contains a separator of the protocol. */
  lemma {:induction false} SanitizedIsClean(a: string)
    ensures '\t' !in Sanitize(a) && '\n' !in Sanitize(a)
  {
    if a != "" {
      SanitizedIsClean(a[1..]);
    }
  }

  // ----- argument lines

  function SanitizeAll(vs: seq<string>): (r: seq<string>)
    ensures |r| == |vs| && forall i :: 0 <= i < |vs| ==> r[i] == Sanitize(vs[i])
  {
    seq(|vs|, i requires 0 <= i < |vs| => Sanitize(vs[i]))
  }

  function DesanitizeAll(vs: seq<string>): (r: seq<string>)
    ensures |r| == |vs| && forall i :: 0 <= i < |vs| ==> r[i] == Desanitize(vs[i])
  {
    seq(|vs|, i requires 0 <= i < |vs| => Desanitize(vs[i]))
  }

  function ArgLine(key: string, values: seq<string>): string {
    Join([Sanitize(key)] + SanitizeAll(values), '\t')
  }

  /** A line with no tab is an error; otherwise the first field names the entry, the others fill it. */
  function ParseArg(line: string, table: Table): Option<Table> {
    var argval := Split(line, '\t');
    if |argval| > 1 then Some(table[Desanitize(argval[0]) := DesanitizeAll(argval[1..])]) else None
  }

  method CommandParseArg(line: string, returnTable: HashTable) returns (retval: bool)
    modifies returnTable
    ensures retval == ParseArg(line, old(returnTable.entries)).Some?
    ensures returnTable.entries ==
            if retval then ParseArg(line, old(returnTable.entries)).value else old(returnTable.entries)
  {
    var argval := Split(line, '\t');
    var len := |argval|;
    if len > 1 {
      var vals := new string[len - 1];
      var i := 1;
      while i < len
        modifies vals
        invariant 1 <= i <= len
        invariant forall k :: 0 <= k < i - 1 ==> vals[k] == Desanitize(argval[1..][k])
      {
        vals[i - 1] := Desanitize(argval[i]);
        i := i + 1;
      }
      assert vals[..] == DesanitizeAll(argval[1..]);
      returnTable.entries := returnTable.entries[Desanitize(argval[0]) := vals[..]];
      retval := true;
    } else {
      retval := false;
    }
  }

  ghost predicate NulFreeAll(vs: seq<string>) {
    forall i :: 0 <= i < |vs| ==> NulFree(vs[i])
  }

  lemma ArgLineFields(key: string, values: seq<string>)
    ensures Fields(ArgLine(key, values), '\t') == [Sanitize(key)] + SanitizeAll(values)
    ensures '\n' !in ArgLine(key, values)
  {
    var words := [Sanitize(key)] + SanitizeAll(values);
    forall w | w in words ensures '\t' !in w && '\n' !in w {
      SanitizedIsClean(key);
      if i :| 0 <= i < |values| && w == SanitizeAll(values)[i] {
        SanitizedIsClean(values[i]);
      }
    }
    FieldsOfJoin(words, '\t');
    JoinContains(words, '\t', '\n');
  }

  /** An argument line with a value is never taken for "done" and enters exactly its key and values;
      one without values never enters anything. */
  lemma ArgLineParses(key: string, values: seq<string>, table: Table)
    requires NulFree(key) && NulFreeAll(values)
    ensures values != [] ==>
              ArgLine(key, values) != "done" && ParseArg(ArgLine(key, values), table) == Some(table[key := values])
    ensures values == [] ==> ParseArg(ArgLine(key, values), table) == None
  {
    ArgLineFields(key, values);
    var words := [Sanitize(key)] + SanitizeAll(values);
    var line := ArgLine(key, values);
    if values != [] {
      JoinContains(words, '\t', '\t');
      assert Split(line, '\t') == words && words[1..] == SanitizeAll(values);
      SanitizeRoundTrip(key);
      forall i | 0 <= i < |values| ensures Desanitize(words[1..][i]) == values[i] {
        SanitizeRoundTrip(values[i]);
      }
      assert DesanitizeAll(words[1..]) == values;
    }
  }
}
