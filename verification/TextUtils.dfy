/** Text helpers of the application: trimming and comparison without regard to case, and the lines of a text. */
module TextUtils {
  import opened Prelude

  /** isspace in the C locale. */
  predicate IsSpace(c: char) {
    c == ' ' || '\t' <= c <= '\r'
  }

  /** Tab, line feed, vertical tab, form feed, carriage return and space, by their codes. */
  lemma {:induction false} SpaceCodes(c: char)
    ensures IsSpace(c) <==> c as int in {0x09, 0x0A, 0x0B, 0x0C, 0x0D, 0x20}
  {
    assert IsSpace(c) ==> 9 <= c as int <= 13 || c as int == 32;
  }

  function TrimLeft(s: string): (r: string)
    ensures |r| <= |s|
  {
    if s != "" && IsSpace(s[0]) then TrimLeft(s[1..]) else s
  }

  function TrimRight(s: string): (r: string)
    ensures |r| <= |s|
  {
    if s != "" && IsSpace(s[|s| - 1]) then TrimRight(s[..|s| - 1]) else s
  }

  function Trim(s: string): string {
    TrimRight(TrimLeft(s))
  }

  /** Nothing is left to trim. */
  predicate Trimmed(s: string) {
    s == "" || (!IsSpace(s[0]) && !IsSpace(s[|s| - 1]))
  }

  predicate Blank(s: string) {
    forall i :: 0 <= i < |s| ==> IsSpace(s[i])
  }

  lemma {:induction false} LeftTrimmed(a: string, s: string)
    requires Blank(a) && (s == "" || !IsSpace(s[0]))
    ensures TrimLeft(a + s) == s
  {
    if a == "" {
      assert a + s == s;
    } else {
      LeftTrimmed(a[1..], s);
      assert (a + s)[1..] == a[1..] + s && (a + s)[0] == a[0];
    }
  }

  lemma {:induction false} RightTrimmed(s: string, b: string)
    requires Blank(b) && (s == "" || !IsSpace(s[|s| - 1]))
    ensures TrimRight(s + b) == s
  {
    if b == "" {
      assert s + b == s;
    } else {
      RightTrimmed(s, b[..|b| - 1]);
      assert (s + b)[..|s + b| - 1] == s + b[..|b| - 1] && (s + b)[|s + b| - 1] == b[|b| - 1];
    }
  }

  lemma {:induction false} BlankVanishes(s: string)
    requires Blank(s)
    ensures TrimLeft(s) == ""
  {
    if s != "" {
      BlankVanishes(s[1..]);
    }
  }

  /** Trim finds exactly the text between the surrounding white space. */
  lemma {:induction false} TrimMeans(a: string, s: string, b: string)
    requires Blank(a) && Blank(b) && Trimmed(s)
    ensures Trim(a + s + b) == s
  {
    if s == "" {
      assert a + s + b == a + b && Blank(a + b);
      BlankVanishes(a + b);
    } else {
      assert a + s + b == a + (s + b);
      LeftTrimmed(a, s + b);
      RightTrimmed(s, b);
    }
  }

  lemma {:induction false} LeftSuffix(s: string)
    ensures var r := TrimLeft(s); (r == "" || !IsSpace(r[0])) && exists k :: 0 <= k <= |s| && r == s[k..]
  {
    if s != "" && IsSpace(s[0]) {
      LeftSuffix(s[1..]);
      var k :| 0 <= k <= |s[1..]| && TrimLeft(s[1..]) == s[1..][k..];
      assert s[1..][k..] == s[k + 1..];
    } else {
      assert s == s[0..];
    }
  }

  lemma {:induction false} RightPrefix(s: string)
    ensures var r := TrimRight(s); (r == "" || !IsSpace(r[|r| - 1])) && r == s[..|r|]
  {
    if s != "" && IsSpace(s[|s| - 1]) {
      RightPrefix(s[..|s| - 1]);
    }
  }

  lemma {:induction false} TrimTrims(s: string)
    ensures Trimmed(Trim(s)) && |Trim(s)| <= |s|
    ensures forall c :: c in Trim(s) ==> c in s
  {
    hide TrimLeft, TrimRight;
    LeftSuffix(s);
    RightPrefix(TrimLeft(s));
  }

  /** The buffer holds the C string `text` at `start`. */
  ghost predicate TextAt(a: array<char>, start: nat, text: string)
    reads a
  {
    start + |text| < a.Length && a[start + |text|] == '\0' && NulFree(text) && a[start..start + |text|] == text
  }

  /** Since the buffer held `before`, nothing was written outside a stretch of it. */
  ghost predicate OnlyWithin(a: array<char>, before: seq<char>, start: nat, end: nat)
    reads a
  {
    |before| == a.Length && forall i {:trigger a[i]} :: 0 <= i < a.Length && (i < start || i > end) ==>
      a[i] == before[i]
  }

  lemma {:induction false} NothingToTrim()
    ensures TrimRight("") == ""
  {
  }

  lemma {:induction false} TextHolds(a: array<char>, start: nat, text: string)
    requires start + |text| < a.Length && a[start + |text|] == '\0' && NulFree(text)
    requires forall i :: 0 <= i < |text| ==> a[start + i] == text[i]
    ensures TextAt(a, start, text)
  {
  }

  lemma {:induction false} PrefixNulFree(a: array<char>, start: nat, s: string, k: nat)
    requires TextAt(a, start, s) && k <= |s|
    ensures NulFree(s[..k])
  {
  }

  /** A text in the buffer, from its k-th byte on. */
  lemma {:induction false} TextByte(a: array<char>, start: nat, text: string, k: nat)
    requires TextAt(a, start, text) && k <= |text|
    ensures start + |text| < a.Length
    ensures a[start + k] == '\0' <==> k == |text|
    ensures k < |text| ==> a[start + k] == text[k]
    ensures TextAt(a, start + k, text[k..])
  {
    assert k < |text| ==> a[start..start + |text|][k] == text[k];
    assert a[start + k..start + |text|] == text[k..];
  }

  lemma {:induction false} TextBytes(a: array<char>, start: nat, text: string)
    requires TextAt(a, start, text)
    ensures start + |text| < a.Length && forall i :: 0 <= i < |text| ==> a[start + i] == text[i]
  {
    assert forall i :: 0 <= i < |text| ==> a[start..start + |text|][i] == text[i];
  }

  /** What the first byte of a text in the buffer says about trimming. */
  lemma {:induction false} LeftUnfolds(a: array<char>, start: nat, text: string)
    requires TextAt(a, start, text)
    ensures start + |text| < a.Length && (text == "" <==> a[start] == '\0') && (text != "" ==> text[0] == a[start])
    ensures IsSpace(a[start]) ==> text != "" && TrimLeft(text) == TrimLeft(text[1..]) && TextAt(a, start + 1, text[1..])
    ensures !IsSpace(a[start]) ==> TrimLeft(text) == text
  {
    TextByte(a, start, text, 0);
    if text != "" {
      TextByte(a, start, text, 1);
    }
  }

  lemma {:induction false} RightUnfolds(text: string, k: nat)
    requires k <= |text|
    ensures k == |text| ==> text[..k] == text
    ensures k > 0 && IsSpace(text[k - 1]) ==> TrimRight(text[..k]) == TrimRight(text[..k - 1])
    ensures k == 0 || !IsSpace(text[k - 1]) ==> TrimRight(text[..k]) == text[..k]
  {
    if k > 0 {
      assert text[..k][..k - 1] == text[..k - 1];
    }
  }

  /** The position of the first `c`, or the length. */
  function IndexOf(s: string, c: char): (i: nat)
    ensures i <= |s| && (i < |s| ==> s[i] == c) && forall j :: 0 <= j < i ==> s[j] != c
  {
    if s == "" || s[0] == c then 0 else 1 + IndexOf(s[1..], c)
  }

  lemma {:induction false} IndexIs(s: string, c: char, i: nat)
    requires i <= |s| && (i < |s| ==> s[i] == c) && forall j :: 0 <= j < i ==> s[j] != c
    ensures IndexOf(s, c) == i
  {
  }

  /** strlen. */
  method StringLength(a: array<char>, start: nat, ghost text: string) returns (length: nat)
    requires TextAt(a, start, text)
    ensures length == |text|
  {
    length := 0;
    while a[start + length] != '\0'
      invariant length <= |text|
      decreases |text| - length
    {
      length := length + 1;
    }
    TextByte(a, start, text, length);
  }

  /** strchr: the first occurrence before the terminator. */
  method StringFind(a: array<char>, start: nat, c: char, ghost text: string) returns (at: Option<nat>)
    requires TextAt(a, start, text) && c != '\0'
    ensures at == if IndexOf(text, c) < |text| then Some(start + IndexOf(text, c)) else None
  {
    var i: nat := 0;
    TextByte(a, start, text, 0);
    while a[start + i] != '\0' && a[start + i] != c
      invariant i <= |text|
      invariant forall j :: 0 <= j < i ==> text[j] != c
      decreases |text| - i
    {
      i := i + 1;
    }
    IndexIs(text, c, i);
    at := if a[start + i] == c then Some(start + i) else None;
  }

  /** The last visible byte of a text that starts with one. */
  method FindEnd(a: array<char>, str: nat, ghost left: string) returns (end: nat)
    requires left != "" && !IsSpace(left[0]) && TextAt(a, str, left)
    ensures str <= end < str + |left| < a.Length && TrimRight(left) == left[..end + 1 - str]
  {
    hide TrimRight, NulFree, TextAt, IsSpace;
    TextByte(a, str, left, |left|);
    var length := StringLength(a, str, left);
    end := str + length - 1;
    RightUnfolds(left, |left|);
    while end > str && IsSpace(a[end])
      invariant str <= end < str + |left|
      invariant TrimRight(left) == TrimRight(left[..end + 1 - str])
    {
      TextByte(a, str, left, end - str);
      RightUnfolds(left, end + 1 - str);
      end := end - 1;
    }
    TextByte(a, str, left, end - str);
    RightUnfolds(left, end + 1 - str);
  }

  /** The trailing part of trim_whitespace, on a text that starts with a visible byte. */
  method TrimTail(a: array<char>, str: nat, ghost left: string)
    requires left != "" && !IsSpace(left[0]) && TextAt(a, str, left)
    modifies a
    ensures TextAt(a, str, TrimRight(left)) && OnlyWithin(a, old(a[..]), str, str + |left|)
  {
    hide TrimRight, NulFree, TextAt, IsSpace;
    var end := FindEnd(a, str, left);
    ghost var trimmed := left[..end + 1 - str];
    PrefixNulFree(a, str, left, end + 1 - str);
    TextBytes(a, str, left);
    a[end + 1] := '\0';
    TextHolds(a, str, trimmed);
  }

  /** trim_whitespace, in the buffer: a terminator replaces the first byte behind the text. */
  method TrimWhitespace(a: array<char>, start: nat, ghost text: string) returns (str: nat)
    requires TextAt(a, start, text)
    modifies a
    ensures start <= str && str + |Trim(text)| <= start + |text|
    ensures TextAt(a, str, Trim(text)) && OnlyWithin(a, old(a[..]), start, start + |text|)
  {
    hide TrimLeft, TrimRight, NulFree, TextAt;
    ghost var left := text;
    LeftUnfolds(a, start, text);
    str := start;
    while IsSpace(a[str])
      invariant start <= str < a.Length && str + |left| == start + |text| && TextAt(a, str, left)
      invariant TrimLeft(text) == TrimLeft(left) && OnlyWithin(a, old(a[..]), start, start + |text|)
      decreases |left|
    {
      LeftUnfolds(a, str, left);
      left := left[1..];
      str := str + 1;
      LeftUnfolds(a, str, left);
    }
    LeftUnfolds(a, str, left);
    if a[str] == '\0' {
      NothingToTrim();
      return;
    }
    TrimTail(a, str, left);
  }

  /** Dictionary order: a text comes before its continuations. */
  predicate Before(a: string, b: string) {
    b != "" && (a == "" || a[0] < b[0] || (a[0] == b[0] && Before(a[1..], b[1..])))
  }

  lemma {:induction false} BeforeUnfolds(a: string, b: string, i: nat)
    requires i <= |a| && i <= |b|
    ensures Before(a[i..], b[i..]) <==>
            i < |b| && (i == |a| || a[i] < b[i] || (a[i] == b[i] && Before(a[i + 1..], b[i + 1..])))
    ensures i == 0 ==> a[i..] == a && b[i..] == b
  {
    if i < |a| {
      assert a[i..][1..] == a[i + 1..];
    }
    if i < |b| {
      assert b[i..][1..] == b[i + 1..];
    }
  }

  /** str_case_cmp: the dictionary order of the texts in lower case; zero exactly for texts that differ in case only. */
  method StrCaseCmp(s1: string, s2: string) returns (r: int)
    requires NulFree(s1) && NulFree(s2)
    ensures r == 0 <==> Lower(s1) == Lower(s2)
    ensures r < 0 <==> Before(Lower(s1), Lower(s2))
    ensures r > 0 <==> Before(Lower(s2), Lower(s1))
  {
    hide Before;
    ghost var a, b := Lower(s1), Lower(s2);
    BeforeUnfolds(a, b, 0);
    var i := 0;
    while i < |s1| && i < |s2|
      invariant 0 <= i <= |s1| && i <= |s2|
      invariant forall j :: 0 <= j < i ==> a[j] == b[j]
      invariant Before(a, b) == Before(a[i..], b[i..]) && Before(b, a) == Before(b[i..], a[i..])
    {
      BeforeUnfolds(a, b, i);
      BeforeUnfolds(b, a, i);
      var c1, c2 := ToLower(s1[i]), ToLower(s2[i]);
      if c1 != c2 {
        assert a[i] != b[i];
        return c1 as int - c2 as int;
      }
      i := i + 1;
    }
    BeforeUnfolds(a, b, i);
    BeforeUnfolds(b, a, i);
    var last1 := if i < |s1| then s1[i] else '\0';
    var last2 := if i < |s2| then s2[i] else '\0';
    r := ToLower(last1) as int - ToLower(last2) as int;
  }

  // ---------------------------------------------------------------- lines

  /** What follows the first newline. */
  function AfterNewline(s: string): (r: string)
    ensures |r| < |s| || s == r == ""
  {
    var n := IndexOf(s, '\n');
    if n < |s| then s[n + 1..] else ""
  }

  /** The lines of a text; text behind the last newline is a line too. */
  function Lines(s: string): seq<string>
    decreases |s|
  {
    if s == "" then [] else [s[..IndexOf(s, '\n')]] + Lines(AfterNewline(s))
  }

  /** What the lines, each followed by a newline, say together. */
  function Unlines(lines: seq<string>): string {
    if lines == [] then "" else lines[0] + "\n" + Unlines(lines[1..])
  }

  lemma {:induction false} NewlineBeyond(a: string, b: string)
    requires '\n' !in a
    ensures IndexOf(a + b, '\n') == |a| + IndexOf(b, '\n') && AfterNewline(a + b) == AfterNewline(b)
  {
    IndexIs(a + b, '\n', |a| + IndexOf(b, '\n'));
  }

  lemma {:induction false} NewlineAt(a: string, b: string)
    requires '\n' !in a
    ensures IndexOf(a + "\n" + b, '\n') == |a| && AfterNewline(a + "\n" + b) == b
  {
    var s := a + "\n" + b;
    assert s[|a|] == '\n' && forall j :: 0 <= j < |a| ==> s[j] == a[j];
    IndexIs(s, '\n', |a|);
  }

  /** Splitting into lines undoes joining them. */
  lemma {:induction false} LinesOfUnlines(lines: seq<string>)
    requires forall i :: 0 <= i < |lines| ==> '\n' !in lines[i]
    ensures Lines(Unlines(lines)) == lines
  {
    hide IndexOf, AfterNewline;
    if lines != [] {
      var rest := Unlines(lines[1..]);
      LinesOfUnlines(lines[1..]);
      NewlineAt(lines[0], rest);
      assert (lines[0] + "\n" + rest)[..|lines[0]|] == lines[0];
    }
  }

  lemma {:induction false} CutAt(s: string, n: nat)
    requires n < |s|
    ensures s == s[..n] + [s[n]] + s[n + 1..]
  {
  }

  lemma {:induction false} SplitAtNewline(s: string)
    ensures var n := IndexOf(s, '\n');
            && (n < |s| ==> s == s[..n] + "\n" + AfterNewline(s))
            && (n == |s| ==> AfterNewline(s) == "" && s[..n] == s && '\n' !in s)
            && '\n' !in s[..n]
  {
    hide IndexOf;
    var n := IndexOf(s, '\n');
    if n < |s| {
      CutAt(s, n);
    } else {
      assert s[..n] == s;
    }
  }

  /** The lines make up the text, with a newline behind each of them but perhaps the last. */
  lemma {:induction false} UnlinesOfLines(s: string)
    ensures Unlines(Lines(s)) == if s == "" || s[|s| - 1] == '\n' then s else s + "\n"
    ensures forall i :: 0 <= i < |Lines(s)| ==> '\n' !in Lines(s)[i]
    decreases |s|
  {
    hide IndexOf, AfterNewline;
    if s != "" {
      var n, rest := IndexOf(s, '\n'), AfterNewline(s);
      UnlinesOfLines(rest);
      SplitAtNewline(s);
      var lines := Lines(rest);
      assert Lines(s) == [s[..n]] + lines && ([s[..n]] + lines)[1..] == lines;
      assert Unlines(Lines(s)) == s[..n] + "\n" + Unlines(lines);
      if n < |s| && rest != "" {
        assert s[|s| - 1] == rest[|rest| - 1];
      }
    }
  }
}
