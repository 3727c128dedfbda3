/** C strings as NUL-free sequences, the GLib splitters the code relies on, and strcmp's order. */
module Text {

  datatype Option<+T> = None | Some(value: T)

  // ----- C strings

  predicate NulFree(s: string) {
    '\0' !in s
  }

  /** What a C reader sees of a buffer: everything before the first NUL. */
  function CString(s: string): (r: string)
    ensures NulFree(r) && r <= s
    ensures r == s || s[|r|] == '\0'
  {
    if s == "" || s[0] == '\0' then "" else [s[0]] + CString(s[1..])
  }

  lemma {:induction false} CStringOfNulFree(s: string)
    requires NulFree(s)
    ensures CString(s) == s
  {
    if s != "" {
      CStringOfNulFree(s[1..]);
    }
  }

  // ----- g_strsplit and its inverse

  function IndexOf(s: string, c: char): (i: nat)
    requires c in s
    ensures i < |s| && s[i] == c && c !in s[..i]
  {
    if s[0] == c then 0 else 1 + IndexOf(s[1..], c)
  }

  /** The pieces of s between separators; there is always at least one. */
  function Fields(s: string, sep: char): (r: seq<string>)
    ensures |r| >= 1
    ensures forall f :: f in r ==> sep !in f
    decreases |s|
  {
    if sep !in s then [s]
    else var i := IndexOf(s, sep); [s[..i]] + Fields(s[i + 1..], sep)
  }

  /** g_strsplit without a limit: like Fields, but the empty string gives the empty vector. */
  function Split(s: string, sep: char): (r: seq<string>)
    ensures forall f :: f in r ==> sep !in f
  {
    if s == "" then [] else Fields(s, sep)
  }

  /** Fields, except that the last of at most `limit` pieces keeps the remaining separators. */
  function FieldsMax(s: string, sep: char, limit: nat): (r: seq<string>)
    ensures 1 <= |r| && (limit > 0 ==> |r| <= limit)
    decreases limit
  {
    if limit <= 1 || sep !in s then [s]
    else var i := IndexOf(s, sep); [s[..i]] + FieldsMax(s[i + 1..], sep, limit - 1)
  }

  /** g_strsplit with a limit. */
  function SplitMax(s: string, sep: char, limit: nat): (r: seq<string>)
    ensures limit > 0 ==> |r| <= limit
  {
    if s == "" then [] else FieldsMax(s, sep, limit)
  }

  function Join(words: seq<string>, sep: char): string {
    if |words| == 0 then ""
    else if |words| == 1 then words[0]
    else words[0] + [sep] + Join(words[1..], sep)
  }

  lemma {:induction false} JoinSnoc(words: seq<string>, sep: char, w: string)
    requires words != []
    ensures Join(words + [w], sep) == Join(words, sep) + [sep] + w
  {
    if |words| > 1 {
      JoinSnoc(words[1..], sep, w);
      assert (words + [w])[1..] == words[1..] + [w];
    }
  }

  lemma IndexOfAfter(a: string, c: char, b: string)
    requires c !in a
    ensures c in a + [c] + b && IndexOf(a + [c] + b, c) == |a|
  {
    var s := a + [c] + b;
    assert s[|a|] == c;
    assert forall k :: 0 <= k < |a| ==> s[k] == a[k];
  }

  /** Splitting undoes joining when no word contains the separator. */
  lemma {:induction false} FieldsOfJoin(words: seq<string>, sep: char)
    requires |words| >= 1
    requires forall w :: w in words ==> sep !in w
    ensures Fields(Join(words, sep), sep) == words
  {
    if |words| > 1 {
      var tail := Join(words[1..], sep);
      IndexOfAfter(words[0], sep, tail);
      var s := words[0] + [sep] + tail;
      assert s[..|words[0]|] == words[0] && s[|words[0]| + 1..] == tail;
      FieldsOfJoin(words[1..], sep);
    }
  }

  /** One more separator makes one more piece. */
  lemma {:induction false} FieldsSnoc(s: string, sep: char, w: string)
    requires sep !in w
    ensures Fields(s + [sep] + w, sep) == Fields(s, sep) + [w]
    decreases |s|
  {
    var t := s + [sep] + w;
    if sep in s {
      var i := IndexOf(s, sep);
      assert t == s[..i] + [sep] + (s[i + 1..] + [sep] + w);
      IndexOfAfter(s[..i], sep, s[i + 1..] + [sep] + w);
      assert t[..i] == s[..i] && t[i + 1..] == s[i + 1..] + [sep] + w;
      FieldsSnoc(s[i + 1..], sep, w);
      assert [s[..i]] + (Fields(s[i + 1..], sep) + [w]) == [s[..i]] + Fields(s[i + 1..], sep) + [w];
    } else {
      IndexOfAfter(s, sep, w);
      assert t[..|s|] == s && t[|s| + 1..] == w;
    }
  }

  /** Joining undoes splitting. */
  lemma {:induction false} JoinOfFields(s: string, sep: char)
    ensures Join(Fields(s, sep), sep) == s
    decreases |s|
  {
    if sep in s {
      var i := IndexOf(s, sep);
      JoinOfFields(s[i + 1..], sep);
      var rest := Fields(s[i + 1..], sep);
      assert Fields(s, sep)[1..] == rest;
      assert s == s[..i] + [sep] + s[i + 1..];
    }
  }

  lemma {:induction false} JoinContains(words: seq<string>, sep: char, c: char)
    ensures c in Join(words, sep) <==> (exists w :: w in words && c in w) || (c == sep && |words| >= 2)
  {
    if |words| > 1 {
      JoinContains(words[1..], sep, c);
      assert words == [words[0]] + words[1..];
    } else if |words| == 1 {
      assert words[0] in words;
    }
  }

  // ----- strcmp

  /** strcmp (a, b) <= 0 on NUL-free strings. */
  predicate LexLe(a: string, b: string) {
    a == "" || (b != "" && (a[0] < b[0] || (a[0] == b[0] && LexLe(a[1..], b[1..]))))
  }

  lemma {:induction false} LexTotal(a: string, b: string)
    ensures LexLe(a, b) || LexLe(b, a)
    ensures LexLe(a, b) && LexLe(b, a) <==> a == b
  {
    if a != "" && b != "" {
      LexTotal(a[1..], b[1..]);
      assert a == [a[0]] + a[1..] && b == [b[0]] + b[1..];
    }
  }

  lemma {:induction false} LexTrans(a: string, b: string, c: string)
    requires LexLe(a, b) && LexLe(b, c)
    ensures LexLe(a, c)
  {
    if a != "" && a[0] == b[0] == c[0] {
      LexTrans(a[1..], b[1..], c[1..]);
    }
  }

  /** A proper extension of a string comes after it. */
  lemma {:induction false} PrefixLe(p: string, s: string)
    requires p <= s
    ensures LexLe(p, s)
  {
    if p != "" {
      PrefixLe(p[1..], s[1..]);
    }
  }

  /** Strings that share a prefix are contiguous in strcmp's order. */
  lemma {:induction false} PrefixesAreContiguous(p: string, x: string, y: string)
    requires LexLe(p, x) && LexLe(x, y) && p <= y
    ensures p <= x
  {
    if p != "" {
      assert y[0] == p[0] && x[0] == p[0];
      PrefixesAreContiguous(p[1..], x[1..], y[1..]);
      assert x == [x[0]] + x[1..] && p == [p[0]] + p[1..];
    }
  }

  /** Putting one character in front does not change the order. */
  lemma SameHeadOrder(c: char, a: string, b: string)
    ensures LexLe([c] + a, [c] + b) <==> LexLe(a, b)
  {
    assert ([c] + a)[1..] == a && ([c] + b)[1..] == b;
  }
}
