/** The printer and the parser together, both as they run. */
module Documents {
  import opened Prelude
  import opened Json
  import opened JsonReader
  import opened RoundTrip
  import opened Heap
  import opened Parser
  import opened Printer
  import opened Comparison

  lemma {:induction false} NoBuffer()
    ensures Buffer(null) == {}
  {
  }

  lemma {:induction false} OneBuffer(a: array<char>)
    ensures Buffer(a) == {a}
  {
  }

  /** What a C caller sees of the printed text is all of it. */
  lemma {:induction false} SeenText(v: Json, format: bool)
    requires Printable(v)
    ensures CString(Render(v, format, 0) + ['\0']) == Render(v, format, 0)
  {
    hide Render, Printable;
    var text := Render(v, format, 0);
    RenderIsNulFree(v, format, 0);
    CStringIs(text + ['\0'], text);
  }

  /** The parser with atof keeps to the text of a tree exactly when no number was written into it. */
  lemma {:induction false} PrintedStays(v: Json, format: bool, strtod: bool)
    requires Printable(v) && RawFree(v) && Nesting(v) <= NESTING_LIMIT
    ensures Astraying(Content(Render(v, format, 0)), strtod) <==> !strtod && !NumberFree(v)
  {
    hide ParseValue, Printable, RawFree, Nesting, Render, NumberMet, NumberFree, SkipBlanks, SkipMark;
    var s := Content(Render(v, format, 0));
    DocumentRoundTrip(v, format);
    NumberFreeUnmet(s, Start(s), 0);
  }

  lemma {:induction false} TextIs(v: Json, spell: string -> string, format: bool)
    ensures PrintedText(v, spell, format) == Render(Spelled(v, spell), format, 0)
  {
  }

  /**
   cJSON_Print and then cJSON_ParseWithOpts: unless memory is refused or the text exceeds INT_MAX, new items stand for
   the tree with its numbers as they are spelled, and the parser stops at the terminator. With atof this asks for a text
   without numbers. The heap holds those items and the text, or just the text, or nothing new.
   */
  method PrintThenParse(item: Item, format: bool, hooks: Allocator, canReallocate: bool, spell: string -> string,
                        strtod: bool, address: nat, ghost t: Tree, ghost v: Json)
    returns (copy: Item?, printed: array?<char>, ghost u: seq<Tree>)
    requires Stands(item, t, v) && Spelling(spell)
    requires RawFree(v) && Nesting(v) <= NESTING_LIMIT
    requires Compiled(Content(PrintedText(v, spell, format)), strtod, address)
    modifies hooks
    ensures copy != null ==>
              && |u| == 1 && Built(copy, u[0], Spelled(v, spell)) && fresh(Reach(u[0])) && printed != null
              && hooks.live == old(hooks.live) + {printed} + Reach(u[0])
    ensures copy == null ==> hooks.live == old(hooks.live) + Buffer(printed)
    ensures printed == null ==>
              copy == null && (hooks.refusals > old(hooks.refusals) || |PrintedText(v, spell, format)| + 2 > INT_MAX)
    ensures |PrintedText(v, spell, format)| + 2 > INT_MAX ==> printed == null
    ensures printed != null && copy == null ==>
              hooks.refusals > old(hooks.refusals) || (!strtod && !NumberFree(Spelled(v, spell)))
    ensures copy != null ==> strtod || NumberFree(Spelled(v, spell))
  {
    hide *;
    copy, u := null, [];
    StandsPrints(item, t, v, spell);
    var wrapped;
    printed, wrapped := Print(item, format, hooks, canReallocate, spell, t, v);
    NoBuffer();
    if printed == null {
      return;
    }
    OneBuffer(printed);
    TextIs(v, spell, format);
    SpelledShape(v, spell);
    SeenText(Spelled(v, spell), format);
    DocumentRoundTrip(Spelled(v, spell), format);
    PrintedStays(Spelled(v, spell), format, strtod);
    var end;
    ghost var w;
    copy, end, u, w := ParseWithOpts(CString(printed[..]), true, hooks, strtod, address);
  }

  /** A parsed item, compared with any item that was there before. */
  lemma {:induction false} BuiltStands(copy: Item, u: Tree, w: Json, t: Tree)
    requires Built(copy, u, w) && Reach(u) !! Reach(t)
    ensures Stands(copy, u, w) && copy.kind != InvalidKind && Nodes(u) !! Nodes(t)
  {
    NodesReached(u);
    NodesReached(t);
  }

  /** What the comparison of a tree with its spelling says. */
  lemma {:induction false} SpelledDecides(equal: bool, v: Json, spell: string -> string, caseSensitive: bool,
                                          numeric: string -> Double)
    requires Decides(equal, Spelled(v, spell), v, true, caseSensitive, numeric) && Lossless(v, spell, numeric)
    ensures equal <==> Coherent(v, caseSensitive, numeric)
  {
    hide Coherent, Meant, Spelled, Lossless;
    SpelledMeans(v, spell, caseSensitive, numeric);
    SpelledCoherent(v, spell, caseSensitive, numeric);
  }

  /**
   Printed, parsed and compared with its source: the answer is yes exactly when the source is coherent, if no double is
   lost in its spelling.
   */
  method PrintParseCompare(item: Item, format: bool, hooks: Allocator, canReallocate: bool, spell: string -> string,
                           strtod: bool, address: nat, caseSensitive: bool, numeric: string -> Double,
                           ghost t: Tree, ghost v: Json)
    returns (copy: Item?, equal: bool)
    requires Stands(item, t, v) && Spelling(spell)
    requires RawFree(v) && Nesting(v) <= NESTING_LIMIT && Lossless(v, spell, numeric)
    requires Compiled(Content(PrintedText(v, spell, format)), strtod, address)
    modifies hooks
    ensures copy != null ==> (equal <==> Coherent(v, caseSensitive, numeric))
    ensures copy == null ==>
              || hooks.refusals > old(hooks.refusals) || |PrintedText(v, spell, format)| + 2 > INT_MAX
              || (!strtod && !NumberFree(Spelled(v, spell)))
  {
    hide *;
    NoAllocator(t, hooks);
    Kinds(item, t, v);
    assert allocated(Reach(t));
    var printed;
    ghost var u;
    copy, printed, u := PrintThenParse(item, format, hooks, canReallocate, spell, strtod, address, t, v);
    equal := false;
    if copy != null {
      BuiltStands(copy, u[0], Spelled(v, spell), t);
      equal := Compare(copy, item, caseSensitive, numeric, u[0], t, Spelled(v, spell), v);
      SpelledDecides(equal, v, spell, caseSensitive, numeric);
    }
  }
}
