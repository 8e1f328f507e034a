/** What cJSON_Minify does to printed trees, and on which texts its scan stays in front of the terminator. */
module MinifyProofs {
  import opened Prelude
  import opened StringCodec
  import opened Json
  import opened Minify

  // ---------------------------------------------------------------- printed trees

  /** Wherever the text `t` occurs, minifying turns it into `u` and goes on behind it. */
  ghost predicate Shrinks(t: string, u: string) {
    forall s, p: nat {:trigger At(s, p, t)} :: At(s, p, t) && p + |t| <= |s| ==>
             Minified(s, p) == Prepend(u, Minified(s, p + |t|))
  }

  /** Shrinking is compositional. */
  lemma {:induction false} ShrinksConcat(a: string, x: string, b: string, y: string)
    requires Shrinks(a, x) && Shrinks(b, y)
    ensures Shrinks(a + b, x + y)
  {
    hide Minified, Cut;
    forall s, p: nat {:trigger At(s, p, a + b)} | At(s, p, a + b) && p + |a + b| <= |s|
      ensures Minified(s, p) == Prepend(x + y, Minified(s, p + |a + b|))
    {
      AtConcat(s, p, a, b);
      PrependAssociates(x, y, Minified(s, p + |a + b|));
    }
  }

  lemma {:induction false} NothingShrinks()
    ensures Shrinks("", "")
  {
    forall s, p: nat {:trigger At(s, p, "")} | At(s, p, "") && p <= |s|
      ensures Minified(s, p) == Prepend("", Minified(s, p + 0))
    {
      PrependNothing(Minified(s, p));
    }
  }

  /** A byte without meaning to the minifier is kept, a blank is dropped. */
  lemma {:induction false} ByteShrinks(c: char)
    requires c != '/' && c != '\"'
    ensures Shrinks([c], if Removed(c) then "" else [c])
  {
    forall s, p: nat {:trigger At(s, p, [c])} | At(s, p, [c]) && p + 1 <= |s|
      ensures Minified(s, p) == Prepend(if Removed(c) then "" else [c], Minified(s, p + 1))
    {
      AtByte(s, p, [c], 0);
      PrependNothing(Minified(s, p + 1));
    }
  }

  predicate Plain(t: string) {
    forall i :: 0 <= i < |t| ==> t[i] != '/' && t[i] != '\"' && !Removed(t[i])
  }

  lemma {:induction false} PlainShrinks(t: string)
    requires Plain(t)
    ensures Shrinks(t, t)
  {
    hide Minified, Shrinks;
    if t == [] {
      NothingShrinks();
    } else {
      ByteShrinks(t[0]);
      PlainShrinks(t[1..]);
      ShrinksConcat([t[0]], [t[0]], t[1..], t[1..]);
      assert [t[0]] + t[1..] == t;
    }
  }

  lemma {:induction false} BlanksShrink(t: string)
    requires forall i :: 0 <= i < |t| ==> Removed(t[i])
    ensures Shrinks(t, "")
  {
    hide Minified, Shrinks;
    if t == [] {
      NothingShrinks();
    } else {
      ByteShrinks(t[0]);
      BlanksShrink(t[1..]);
      ShrinksConcat([t[0]], "", t[1..], "");
      assert [t[0]] + t[1..] == t && "" + "" == "";
    }
  }

  lemma {:induction false} AtCut(s: string, p: nat, t: string)
    requires At(s, p, t)
    ensures p + |t| <= |s| && s[p..p + |t|] == t
  {
  }

  lemma {:induction false} QuoteShrinks(key: string)
    ensures Shrinks(Quote(key), Quote(key))
  {
    hide Cut, Escape, Unescape;
    forall s, p: nat {:trigger At(s, p, Quote(key))} | At(s, p, Quote(key)) && p + |Quote(key)| <= |s|
      ensures Minified(s, p) == Prepend(Quote(key), Minified(s, p + |Quote(key)|))
    {
      var e := p + 1 + |Escape(key)|;
      AtConcat(s, p, QUOTE + Escape(key), QUOTE);
      AtConcat(s, p, QUOTE, Escape(key));
      AtByte(s, p, QUOTE, 0);
      EscapedReads(key, s, p + 1);
      AtCut(s, p, Quote(key));
    }
  }

  lemma {:induction false} NumberIsPlain(t: string)
    requires PrintedNumber(t)
    ensures Plain(t)
  {
    hide Numeral;
  }

  /** Indentation and line breaks vanish, the other punctuation stays. */
  lemma {:induction false} PunctuationShrinks(format: bool, depth: nat)
    ensures Shrinks(if format then "{\n" else "{", "{")
    ensures Shrinks(if format then Tabs(depth) else "", "")
    ensures Shrinks(if format then ":\t" else ":", ":")
    ensures Shrinks(if format then "\n" else "", "")
    ensures Shrinks("}", "}") && Shrinks(",", ",") && Shrinks("", "")
  {
    hide Minified, Shrinks;
    PlainShrinks("{");
    PlainShrinks("}");
    PlainShrinks(":");
    PlainShrinks(",");
    NothingShrinks();
    BlanksShrink("\n");
    BlanksShrink("\t");
    BlanksShrink(Tabs(depth));
    ShrinksConcat("{", "{", "\n", "");
    ShrinksConcat(":", ":", "\t", "");
    assert "{" + "\n" == "{\n" && "{" + "" == "{" && ":" + "\t" == ":\t" && ":" + "" == ":";
  }

  lemma {:induction false} HeadShrinks(key: string, format: bool, depth: nat)
    ensures Shrinks(MemberHead(key, format, depth), MemberHead(key, false, depth))
  {
    hide Minified, Shrinks, Quote, Tabs;
    PunctuationShrinks(format, depth);
    QuoteShrinks(key);
    var tabs := if format then Tabs(depth) else "";
    ShrinksConcat(tabs, "", Quote(key), Quote(key));
    ShrinksConcat(tabs + Quote(key), "" + Quote(key), if format then ":\t" else ":", ":");
  }

  lemma {:induction false} TailShrinks(last: bool, format: bool)
    ensures Shrinks(MemberTail(last, format), MemberTail(last, false))
  {
    hide Minified, Shrinks;
    PunctuationShrinks(format, 0);
    ShrinksConcat(if last then "" else ",", if last then "" else ",", if format then "\n" else "", "");
  }

  /** A printed tree, in either format, shrinks to its unformatted text. */
  lemma {:induction false} TreeShrinks(v: Json, format: bool, depth: nat)
    requires Printable(v) && RawFree(v)
    ensures Shrinks(Render(v, format, depth), Render(v, false, depth))
    decreases v, 1
  {
    hide Minified, Shrinks, Quote, PrintedNumber;
    match v
    case Null => PlainShrinks("null");
    case False => PlainShrinks("false");
    case True => PlainShrinks("true");
    case Number(t) => NumberIsPlain(t); PlainShrinks(t);
    case String(s) => QuoteShrinks(s);
    case Array(items) =>
      PlainShrinks("[");
      ItemsShrink(items, format, depth + 1);
      ShrinksConcat("[", "[", RenderItems(items, format, depth + 1), RenderItems(items, false, depth + 1));
      PlainShrinks("]");
      ShrinksConcat("[" + RenderItems(items, format, depth + 1), "[" + RenderItems(items, false, depth + 1), "]", "]");
    case Object(members) =>
      ObjectShrinks(members, format, depth);
  }

  lemma {:induction false} ItemsShrink(items: seq<Json>, format: bool, depth: nat)
    requires forall i :: 0 <= i < |items| ==> Printable(items[i]) && RawFree(items[i])
    ensures Shrinks(RenderItems(items, format, depth), RenderItems(items, false, depth))
    decreases items, 0
  {
    hide Minified, Shrinks, Render;
    if items == [] {
      NothingShrinks();
    } else {
      TreeShrinks(items[0], format, depth);
      if |items| > 1 {
        var a, x := Render(items[0], format, depth), Render(items[0], false, depth);
        PlainShrinks(",");
        BlanksShrink(" ");
        ShrinksConcat(",", ",", " ", "");
        assert "," + " " == ", " && "," + "" == ",";
        ShrinksConcat(a, x, ItemSeparator(format), ",");
        ItemsShrink(items[1..], format, depth);
        ShrinksConcat(a + ItemSeparator(format), x + ",", RenderItems(items[1..], format, depth),
                      RenderItems(items[1..], false, depth));
      }
    }
  }

  lemma {:induction false} ObjectShrinks(members: seq<Member>, format: bool, depth: nat)
    requires Printable(Object(members)) && RawFree(Object(members))
    ensures Shrinks(Render(Object(members), format, depth), Render(Object(members), false, depth))
    decreases members, 2
  {
    hide Minified, Shrinks, RenderMembers, Tabs;
    var open, tabs := if format then "{\n" else "{", if format then Tabs(depth) else "";
    var a, x := RenderMembers(members, format, depth + 1), RenderMembers(members, false, depth + 1);
    PunctuationShrinks(format, depth);
    MembersShrink(members, format, depth + 1);
    ShrinksConcat(open, "{", a, x);
    ShrinksConcat(open + a, "{" + x, tabs, "");
    ShrinksConcat(open + a + tabs, "{" + x + "", "}", "}");
  }

  lemma {:induction false} MembersShrink(members: seq<Member>, format: bool, depth: nat)
    requires forall i :: 0 <= i < |members| ==> Printable(members[i].value) && RawFree(members[i].value)
    ensures Shrinks(RenderMembers(members, format, depth), RenderMembers(members, false, depth))
    decreases members, 0
  {
    hide Minified, Shrinks, Render, Quote, Tabs;
    if members == [] {
      NothingShrinks();
    } else {
      var key, value := members[0].key, members[0].value;
      HeadShrinks(key, format, depth);
      TreeShrinks(value, format, depth);
      TailShrinks(|members| == 1, format);
      MembersShrink(members[1..], format, depth);
      var h, i := MemberHead(key, format, depth), MemberHead(key, false, depth);
      var a, x := Render(value, format, depth), Render(value, false, depth);
      var t, u := MemberTail(|members| == 1, format), MemberTail(|members| == 1, false);
      ShrinksConcat(h, i, a, x);
      ShrinksConcat(h + a, i + x, t, u);
      ShrinksConcat(h + a + t, i + x + u, RenderMembers(members[1..], format, depth),
                    RenderMembers(members[1..], false, depth));
    }
  }

  /** Minifying a print in either format gives the unformatted print, byte for byte. */
  lemma {:induction false} MinifyUndoesFormatting(v: Json, format: bool)
    requires Printable(v) && RawFree(v)
    ensures Minified(Render(v, format, 0), 0) == Some(Render(v, false, 0))
  {
    hide Minified, Render, Printable, RawFree;
    var t := Render(v, format, 0);
    TreeShrinks(v, format, 0);
    assert t[0..0 + |t|] == t;
    assert At(t, 0, t);
    MinifiedEnd(t);
    assert Render(v, false, 0) + [] == Render(v, false, 0);
  }

  lemma {:induction false} OpenTexts()
    ensures !Closed(Run(Code, "/*", 0)) && !Closed(Run(Code, "\"", 0))
  {
    assert Run(Code, "/*", 0) == Run(Slash, "/*", 1) == Run(Star, "/*", 2);
    assert Run(Code, "\"", 0) == Run(Literal, "\"", 1);
  }

  /** cJSON_Minify applied to an open comment and to an open literal: the read pointer passes the terminator. */
  method MinifyRunsOver() returns (comment: bool, literal: bool)
    ensures comment && literal
  {
    var block := new char[3]['/', '*', '\0'];
    assert block[..2] == "/*";
    OpenTexts();
    comment := MinifyInPlace(block, "/*");
    block := new char[2]['\"', '\0'];
    assert block[..1] == "\"";
    literal := MinifyInPlace(block, "\"");
  }
}
