/** Shared vocabulary: optional values and texts located inside a larger text. */
module Prelude {
  datatype Option<+T> = None | Some(value: T)

  /** The `n` bytes of `s` from position `p` on, if there are so many. */
  function Cut(s: string, p: nat, n: nat): Option<string> {
    if p + n <= |s| then Some(s[p..p + n]) else None
  }

  /** The text `t` occurs in `s` at position `p`. */
  predicate At(s: string, p: nat, t: string) {
    Cut(s, p, |t|) == Some(t)
  }

  lemma {:induction false} AtConcat(s: string, p: nat, a: string, b: string)
    ensures At(s, p, a + b) <==> At(s, p, a) && At(s, p + |a|, b)
  {
    if At(s, p, a + b) {
      assert s[p..p + |a|] == s[p..p + |a + b|][..|a|];
      assert s[p + |a|..p + |a| + |b|] == s[p..p + |a + b|][|a|..];
    }
    if At(s, p, a) && At(s, p + |a|, b) {
      assert s[p..p + |a + b|] == s[p..p + |a|] + s[p + |a|..p + |a| + |b|];
    }
  }

  lemma {:induction false} AtFour(s: string, p: nat, a: string, b: string, c: string, d: string)
    requires At(s, p, a + b + c + d)
    ensures At(s, p, a) && At(s, p + |a|, b) && At(s, p + |a| + |b|, c) && At(s, p + |a| + |b| + |c|, d)
  {
    AtConcat(s, p, a + b + c, d);
    AtConcat(s, p, a + b, c);
    AtConcat(s, p, a, b);
  }

  lemma {:induction false} AtByte(s: string, p: nat, t: string, i: nat)
    requires At(s, p, t) && i < |t|
    ensures p + |t| <= |s| && s[p + i] == t[i]
  {
    assert s[p..p + |t|][i] == t[i];
  }

  /** A text without the terminator byte, as every C string is. */
  predicate NulFree(s: string) {
    forall i :: 0 <= i < |s| ==> s[i] != '\0'
  }

  /** What a C caller sees of a byte buffer: everything before the first terminator. */
  function CString(s: string): (r: string)
    ensures NulFree(r) && r <= s
    ensures r == s || (|r| < |s| && s[|r|] == '\0')
  {
    if s == [] || s[0] == '\0' then [] else [s[0]] + CString(s[1..])
  }

  lemma {:induction false} CStringOfNulFree(s: string)
    requires NulFree(s)
    ensures CString(s) == s
  {
    if s != [] {
      CStringOfNulFree(s[1..]);
    }
  }

  /** The C string of a buffer is what stands before its first terminator. */
  lemma {:induction false} CStringIs(s: string, t: string)
    requires NulFree(t) && |t| < |s| && s[|t|] == '\0' && s[..|t|] == t
    ensures CString(s) == t
  {
    if t != "" {
      assert s[0] == s[..|t|][0] == t[0];
      assert s[1..][..|t| - 1] == s[..|t|][1..] == t[1..];
      CStringIs(s[1..], t[1..]);
    }
  }

  lemma {:induction false} CStringEnds(s: string)
    requires '\0' in s
    ensures var r := CString(s); |r| < |s| && s[|r|] == '\0' && s[..|r|] == r
  {
    if s[0] != '\0' {
      assert '\0' in s[1..];
      CStringEnds(s[1..]);
    }
  }

  /** tolower in the C locale. */
  function ToLower(c: char): char {
    if 'A' <= c <= 'Z' then c + 32 as char else c
  }

  const CAPITALS := "ABCDEFGHIJKLMNOPQRSTUVWXYZ"
  const SMALLS := "abcdefghijklmnopqrstuvwxyz"

  /** One byte, or the two cases of one of the 26 letters. */
  ghost predicate SameLetter(c: char, d: char) {
    c == d || exists k :: 0 <= k < 26 && ((c == CAPITALS[k] && d == SMALLS[k]) || (c == SMALLS[k] && d == CAPITALS[k]))
  }

  lemma {:induction false} Letters(k: nat)
    requires k < 26
    ensures |CAPITALS| == |SMALLS| == 26
    ensures CAPITALS[k] as int == 'A' as int + k && SMALLS[k] as int == 'a' as int + k
  {
  }

  /** Bytes are lowered to the same byte exactly when they are one byte or the two cases of one letter. */
  lemma {:induction false} LowerLetters(c: char, d: char)
    ensures ToLower(c) == ToLower(d) <==> SameLetter(c, d)
  {
    forall k | 0 <= k < 26
      ensures CAPITALS[k] as int == 'A' as int + k && SMALLS[k] as int == 'a' as int + k
    {
      Letters(k);
    }
    if ToLower(c) == ToLower(d) && c != d {
      var k := ToLower(c) as int - 'a' as int;
      assert 0 <= k < 26;
      assert (c == CAPITALS[k] && d == SMALLS[k]) || (c == SMALLS[k] && d == CAPITALS[k]);
    }
  }

  function Lower(s: string): (r: string)
    ensures |r| == |s| && forall i :: 0 <= i < |s| ==> r[i] == ToLower(s[i])
  {
    seq(|s|, i requires 0 <= i < |s| => ToLower(s[i]))
  }
}
