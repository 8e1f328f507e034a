/** The recursive-descent parser of cJSON over a mutable cursor, building items on the heap. */
module Parser {
  import opened Prelude
  import opened StringCodec
  import opened Json
  import opened JsonReader
  import opened Heap

  /** Addresses and sizes have 32 bits. */
  const WORD: nat := 0x1_0000_0000

  // ---------------------------------------------------------------- UTF-16 escapes to UTF-8

  /** A code point after `k` shifts by six bits. */
  function Shifted(cp: nat, k: nat): nat {
    if k == 0 then cp else Shifted(cp, k - 1) / 64
  }

  /** The mark of the first byte of an encoding of `n` bytes. */
  function FirstByteMark(n: nat): nat {
    if n == 1 then 0 else if n == 2 then 0xC0 else if n == 3 then 0xE0 else 0xF0
  }

  /** Six bits at a time from the back, what is left goes into the first byte. */
  lemma {:induction false} Utf8Bytes(cp: nat, position: nat)
    requires cp <= 0x10FFFF && position < |Utf8(cp)|
    ensures var n := |Utf8(cp)|;
            Utf8(cp)[position] as int == if position > 0 then 0x80 + Shifted(cp, n - 1 - position) % 64
                                         else FirstByteMark(n) + Shifted(cp, n - 1)
    ensures Utf8(cp)[position] as int < 256
  {
    assert Shifted(cp, 0) == cp;
    assert Shifted(cp, 1) == cp / 64;
    assert Shifted(cp, 2) == cp / 64 / 64;
    assert Shifted(cp, 3) == cp / 64 / 64 / 64;
  }

  /** The encoding loop of utf16_literal_to_utf8. */
  method WriteUtf8(cp: nat, utf8Length: nat, firstByteMark: nat, output: array<char>, out: nat)
    requires cp <= 0x10FFFF && utf8Length == |Utf8(cp)| && out + utf8Length <= output.Length
    requires firstByteMark == FirstByteMark(utf8Length)
    modifies output
    ensures output[out..out + utf8Length] == Utf8(cp)
    ensures forall i :: 0 <= i < out ==> output[i] == old(output[i])
  {
    hide Utf8;
    var codepoint := cp;
    var position := utf8Length - 1;
    while position > 0
      invariant 0 <= position < utf8Length
      invariant codepoint == Shifted(cp, utf8Length - 1 - position)
      invariant forall j :: out + position < j < out + utf8Length ==> output[j] == Utf8(cp)[j - out]
      invariant forall i :: 0 <= i < out ==> output[i] == old(output[i])
    {
      Utf8Bytes(cp, position);
      output[out + position] := Byte(0x80 + codepoint % 64);
      codepoint := codepoint / 64;
      position := position - 1;
    }
    Utf8Bytes(cp, 0);
    output[out] := Byte(firstByteMark + codepoint);
  }

  /** The first half of utf16_literal_to_utf8: one escape, or two for a surrogate pair; length 0 on failure. */
  method ReadUnits(input: string, p: nat, end: nat) returns (sequenceLength: nat, codepoint: nat)
    requires p <= end <= |input|
    ensures match Utf16Literal(input, p, end)
            case None => sequenceLength == 0
            case Some((cp, length)) => sequenceLength == length > 0 && codepoint == cp <= 0x10FFFF
  {
    hide Hex4;
    sequenceLength, codepoint := 0, 0;
    if end - p < 6 {
      return;
    }
    var firstCode := ParseHex4(input, p + 2);
    if 0xDC00 <= firstCode <= 0xDFFF {
      return;
    }
    if 0xD800 <= firstCode <= 0xDBFF {
      var second := p + 6;
      if end - second < 6 {
        return;
      }
      if input[second] != '\\' || input[second + 1] != 'u' {
        return;
      }
      var secondCode := ParseHex4(input, second + 2);
      if secondCode < 0xDC00 || secondCode > 0xDFFF {
        return;
      }
      codepoint := 0x10000 + (firstCode - 0xD800) * 0x400 + (secondCode - 0xDC00);
      sequenceLength := 12;
    } else {
      sequenceLength, codepoint := 6, firstCode;
    }
  }

  /** The table of lengths and first byte marks. */
  method Utf8Table(codepoint: nat) returns (utf8Length: nat, firstByteMark: nat)
    requires codepoint <= 0x10FFFF
    ensures utf8Length == |Utf8(codepoint)| && firstByteMark == FirstByteMark(utf8Length)
  {
    utf8Length, firstByteMark := 0, 0;
    if codepoint < 0x80 {
      utf8Length := 1;
    } else if codepoint < 0x800 {
      utf8Length, firstByteMark := 2, 0xC0;
    } else if codepoint < 0x10000 {
      utf8Length, firstByteMark := 3, 0xE0;
    } else {
      utf8Length, firstByteMark := 4, 0xF0;
    }
  }

  /** utf16_literal_to_utf8: writes the bytes back to front and returns the length of the escape, 0 on failure. */
  method Utf16LiteralToUtf8(input: string, p: nat, end: nat, output: array<char>, out: nat)
    returns (sequenceLength: nat, utf8Length: nat)
    requires p <= end <= |input|
    requires Utf16Literal(input, p, end).Some? ==> out + |Utf8(Utf16Literal(input, p, end).value.0)| <= output.Length
    modifies output
    ensures forall i :: 0 <= i < output.Length && i < out ==> output[i] == old(output[i])
    ensures Utf16Literal(input, p, end).None? ==> sequenceLength == 0
    ensures Utf16Literal(input, p, end).Some? ==>
              var (cp, len) := Utf16Literal(input, p, end).value;
              sequenceLength == len && utf8Length == |Utf8(cp)| && output[out..out + utf8Length] == Utf8(cp)
  {
    hide Utf16Literal, Utf8;
    utf8Length := 0;
    var codepoint, firstByteMark;
    sequenceLength, codepoint := ReadUnits(input, p, end);
    if sequenceLength > 0 {
      utf8Length, firstByteMark := Utf8Table(codepoint);
      WriteUtf8(codepoint, utf8Length, firstByteMark, output, out);
    }
  }

  // ---------------------------------------------------------------- room for the bytes of a literal

  /** A buffer with the bytes and a terminator holds what a C caller reads from it. */
  lemma {:induction false} TextInBuffer(a: array<char>, bytes: string)
    requires |bytes| < a.Length && a[..|bytes|] == bytes && a[|bytes|] == '\0'
    ensures HoldsText(a, CString(bytes))
  {
    var c := CString(bytes);
    assert a[..|c|] == a[..|bytes|][..|c|] == c;
  }

  /** A \u escape names at most half as many bytes as it takes. */
  lemma {:induction false} Utf8Length(s: string, p: nat, e: nat)
    requires p <= e <= |s| && Utf16Literal(s, p, e).Some?
    ensures var (cp, n) := Utf16Literal(s, p, e).value;
            (n == 6 && |Utf8(cp)| <= 3) || (n == 12 && |Utf8(cp)| <= 4)
  {
  }

  lemma {:induction false} ReservedMonotone(s: string, start: nat, p: nat, q: nat)
    requires start <= p <= q <= |s|
    ensures Reserved(s, start, p) <= Reserved(s, start, q)
    decreases q
  {
    if p < q {
      ReservedMonotone(s, start, p, q - 1);
    }
  }

  /** What the first pass reserves for the next step of the second pass. */
  lemma {:induction false} ReservedStep(s: string, start: nat, p: nat, e: nat)
    requires start <= p < e < |s|
    ensures s[p] != '\\' ==> Reserved(s, start, p + 1) == Reserved(s, start, p) + 1
    ensures p + 2 <= e ==> Reserved(s, start, p + 2) >= Reserved(s, start, p) + 1
    ensures p + 6 <= e ==> Reserved(s, start, p + 6) >= Reserved(s, start, p) + 3
    ensures p + 12 <= e ==> Reserved(s, start, p + 12) >= Reserved(s, start, p) + 6
    ensures Reserved(s, start, p) <= Reserved(s, start, e)
    ensures p + 2 <= e ==> Reserved(s, start, p + 2) <= Reserved(s, start, e)
    ensures p + 6 <= e ==> Reserved(s, start, p + 6) <= Reserved(s, start, e)
    ensures p + 12 <= e ==> Reserved(s, start, p + 12) <= Reserved(s, start, e)
  {
    if p + 2 <= e { ReservedGrows(s, start, p, 1); ReservedMonotone(s, start, p + 2, e); }
    if p + 6 <= e { ReservedGrows(s, start, p, 3); ReservedMonotone(s, start, p + 6, e); }
    if p + 12 <= e { ReservedGrows(s, start, p, 6); ReservedMonotone(s, start, p + 12, e); }
    ReservedMonotone(s, start, p, e);
  }

  // ---------------------------------------------------------------- the reader step by step

  /** The items read so far, in front of those still to come. */
  function PrefixItems(vals: seq<Json>, r: Option<(seq<Json>, nat)>): Option<(seq<Json>, nat)> {
    match r
    case None => None
    case Some((rest, e)) => Some((vals + rest, e))
  }

  lemma {:induction false} PrefixNothing(r: Option<(seq<Json>, nat)>)
    ensures PrefixItems([], r) == r
  {
    if r.Some? {
      assert [] + r.value.0 == r.value.0;
    }
  }

  /** One round of the loop of parse_array, as the reader sees it. */
  lemma {:induction false} ItemsStep(s: string, p: nat, depth: nat, vals: seq<Json>)
    requires Terminated(s) && p < |s| && depth <= NESTING_LIMIT
    ensures match JsonReader.ParseValue(s, SkipBlanks(s, p), depth)
            case None => PrefixItems(vals, JsonReader.ParseItems(s, p, depth)) == None
            case Some((v, r)) =>
              var q := SkipBlanks(s, r);
              && q < |s| && p <= q
              && (s[q] == ',' ==>
                    q + 1 < |s| && PrefixItems(vals, JsonReader.ParseItems(s, p, depth))
                    == PrefixItems(vals + [v], JsonReader.ParseItems(s, q + 1, depth)))
              && (s[q] != ',' ==>
                    PrefixItems(vals, JsonReader.ParseItems(s, p, depth))
                    == if s[q] == ']' then Some((vals + [v], q + 1)) else None)
  {
    hide JsonReader.ParseValue;
    match JsonReader.ParseValue(s, SkipBlanks(s, p), depth) {
      case None =>
      case Some((v, r)) =>
        var q := SkipBlanks(s, r);
        if s[q] == ',' && JsonReader.ParseItems(s, q + 1, depth).Some? {
          var rest := JsonReader.ParseItems(s, q + 1, depth).value.0;
          assert vals + ([v] + rest) == vals + [v] + rest;
        }
    }
  }

  lemma {:induction false} MemberUnfolds(s: string, p: nat, depth: nat)
    requires Terminated(s) && p < |s| && depth <= NESTING_LIMIT
    ensures match ReadString(s, SkipBlanks(s, p))
            case None => ParseMember(s, p, depth) == None
            case Some((key, k)) =>
              var c := SkipBlanks(s, k);
              if s[c] != ':' then ParseMember(s, p, depth) == None
              else
                c + 1 < |s| && p < c && match JsonReader.ParseValue(s, SkipBlanks(s, c + 1), depth)
                case None => ParseMember(s, p, depth) == None
                case Some((v, r)) => ParseMember(s, p, depth) == Some((Member(key, v), r))
  {
    hide JsonReader.ParseValue;
  }

  function PrefixMembers(ms: seq<Member>, r: Option<(seq<Member>, nat)>): Option<(seq<Member>, nat)> {
    match r
    case None => None
    case Some((rest, e)) => Some((ms + rest, e))
  }

  lemma {:induction false} PrefixNoMembers(r: Option<(seq<Member>, nat)>)
    ensures PrefixMembers([], r) == r
  {
    if r.Some? {
      assert [] + r.value.0 == r.value.0;
    }
  }

  /** One round of the loop of parse_object, as the reader sees it. */
  lemma {:induction false} MembersStep(s: string, p: nat, depth: nat, ms: seq<Member>)
    requires Terminated(s) && p < |s| && depth <= NESTING_LIMIT
    ensures match ParseMember(s, p, depth)
            case None => PrefixMembers(ms, ParseMembers(s, p, depth)) == None
            case Some((m, r)) =>
              var q := SkipBlanks(s, r);
              && q < |s| && p <= q
              && (s[q] == ',' ==>
                    q + 1 < |s| && PrefixMembers(ms, ParseMembers(s, p, depth))
                    == PrefixMembers(ms + [m], ParseMembers(s, q + 1, depth)))
              && (s[q] != ',' ==>
                    PrefixMembers(ms, ParseMembers(s, p, depth))
                    == if s[q] == '}' then Some((ms + [m], q + 1)) else None)
  {
    hide ParseMember;
    match ParseMember(s, p, depth) {
      case None =>
      case Some((m, r)) =>
        var q := SkipBlanks(s, r);
        if s[q] == ',' && ParseMembers(s, q + 1, depth).Some? {
          var rest := ParseMembers(s, q + 1, depth).value.0;
          assert ms + ([m] + rest) == ms + [m] + rest;
        }
    }
  }

  lemma {:induction false} RunUnfolds(s: string, p: nat, room: nat)
    requires p <= |s|
    ensures NumberRun(s, p, room)
            == if room > 0 && p < |s| && NumberByte(s[p]) then 1 + NumberRun(s, p + 1, room - 1) else 0
  {
  }

  lemma {:induction false} NumberResult(s: string, p: nat, n: nat)
    requires Terminated(s) && p < |s| && NumberRun(s, p, NUMBER_BUFFER) == n
    ensures var run := s[p..p + n];
            var k := NumeralPrefix(run, |run|);
            JsonReader.ParseNumber(s, p) == if k == 0 then None else Some((Number(run[..k]), p + k))
  {
    hide Numeral, NumeralPrefix, NumberRun;
  }

  /** Where a number is met in front of an opening bracket. */
  lemma {:induction false} ArrayMeets(s: string, p: nat, depth: nat)
    requires Terminated(s) && p < |s| && s[p] == '[' && depth <= NESTING_LIMIT
    ensures NumberMet(s, p, depth) <==> depth < NESTING_LIMIT && s[SkipBlanks(s, p + 1)] != ']'
                                        && NumberMetInItems(s, SkipBlanks(s, p + 1), depth + 1)
  {
    hide NumberMetInItems, SkipBlanks;
  }

  lemma {:induction false} ObjectMeets(s: string, p: nat, depth: nat)
    requires Terminated(s) && p < |s| && s[p] == '{' && depth <= NESTING_LIMIT
    ensures NumberMet(s, p, depth) <==> depth < NESTING_LIMIT && s[SkipBlanks(s, p + 1)] != '}'
                                        && NumberMetInMembers(s, SkipBlanks(s, p + 1), depth + 1)
  {
    hide NumberMetInMembers, SkipBlanks;
  }

  lemma {:induction false} ItemsMeet(s: string, p: nat, depth: nat)
    requires Terminated(s) && p < |s| && depth <= NESTING_LIMIT
    ensures NumberMetInItems(s, p, depth) <==>
            || NumberMet(s, SkipBlanks(s, p), depth)
            || match JsonReader.ParseValue(s, SkipBlanks(s, p), depth)
               case None => false
               case Some((_, r)) => var q := SkipBlanks(s, r); s[q] == ',' && NumberMetInItems(s, q + 1, depth)
  {
    hide JsonReader.ParseValue, NumberMet;
  }

  lemma {:induction false} MemberMeets(s: string, p: nat, depth: nat)
    requires Terminated(s) && p < |s| && depth <= NESTING_LIMIT
    ensures NumberMetInMember(s, p, depth) <==>
            match ReadString(s, SkipBlanks(s, p))
            case None => false
            case Some((_, k)) => var c := SkipBlanks(s, k); s[c] == ':' && NumberMet(s, SkipBlanks(s, c + 1), depth)
  {
    hide NumberMet;
  }

  lemma {:induction false} MembersMeet(s: string, p: nat, depth: nat)
    requires Terminated(s) && p < |s| && depth <= NESTING_LIMIT
    ensures NumberMetInMembers(s, p, depth) <==>
            || NumberMetInMember(s, p, depth)
            || match ParseMember(s, p, depth)
               case None => false
               case Some((_, r)) => var q := SkipBlanks(s, r); s[q] == ',' && NumberMetInMembers(s, q + 1, depth)
  {
    hide ParseMember, NumberMetInMember;
  }

  /** The words of the values without content. */
  function Word(v: Json): string {
    if v.Null? then "null" else if v.False? then "false" else "true"
  }

  lemma {:induction false} WordHeads(s: string, p: nat)
    requires p < |s|
    ensures At(s, p, "null") || At(s, p, "false") || At(s, p, "true") ==> s[p] in "nft"
  {
    WordHead(s, p, "null");
    WordHead(s, p, "false");
    WordHead(s, p, "true");
  }

  lemma {:induction false} WordReads(s: string, p: nat, depth: nat, v: Json)
    requires Terminated(s) && p < |s| && depth <= NESTING_LIMIT && At(s, p, Word(v))
    requires v.Null? || v.False? || v.True?
    ensures JsonReader.ParseValue(s, p, depth) == Some((v, p + |Word(v)|)) && !NumberMet(s, p, depth)
  {
    WordHead(s, p, "null");
    WordHead(s, p, "false");
    WordHead(s, p, "true");
  }

  /** The cases of parse_value that are no word and no container. */
  lemma {:induction false} LeafReads(s: string, p: nat, depth: nat)
    requires Terminated(s) && p < |s| && depth <= NESTING_LIMIT && s[p] != '[' && s[p] != '{'
    requires !At(s, p, "null") && !At(s, p, "false") && !At(s, p, "true")
    ensures NumberMet(s, p, depth) <==> NumberStart(s[p])
    ensures JsonReader.ParseValue(s, p, depth) ==
            if s[p] == '\"' then
              (match ReadString(s, p)
               case None => None
               case Some((bytes, r)) => Some((String(bytes), r)))
            else if NumberStart(s[p]) then JsonReader.ParseNumber(s, p)
            else None
  {
    hide ReadString, JsonReader.ParseNumber, ParseItems, ParseMembers, NumberMetInItems, NumberMetInMembers;
  }

  /** What atof makes of the bytes that were collected: the number of the longest numeral, or 0. */
  function AtofText(run: string): string {
    var k := NumeralPrefix(run, |run|);
    if k == 0 then "0" else run[..k]
  }

  /** The cursor after `number_c_string` at `address` has been subtracted from NULL. */
  function Astray(offset: nat, address: nat): nat
    requires address <= WORD
  {
    (offset + (WORD - address)) % WORD
  }

  /**
   With atof the cursor never ends behind the numeral, wherever the 64 bytes of the number buffer lie; and when both
   ends of the address space are farther away than the length of the text, the cursor leaves the text.
   */
  lemma {:induction false} AtofNeverRight(offset: nat, length: nat, address: nat, numeral: nat)
    requires offset < length < WORD && 0 < address <= WORD - 64 && numeral < 64 && offset + numeral < WORD
    ensures Astray(offset, address) != offset + numeral
    ensures length <= address < WORD - length ==> Astray(offset, address) == offset + WORD - address > length
  {
    if offset < address {
      assert (offset + (WORD - address)) % WORD == offset + WORD - address;
    } else {
      assert (offset + (WORD - address)) == WORD + (offset - address);
      assert (offset + (WORD - address)) % WORD == offset - address;
    }
  }

  /** The parser as it is compiled: with strtod, or with atof and a number buffer far from both ends of the memory. */
  predicate Compiled(s: string, strtod: bool, address: nat) {
    strtod || (|s| <= address < WORD - |s| && address <= WORD - 64)
  }

  /** Where atof puts the cursor: outside the text. */
  lemma {:induction false} AtofLeaves(s: string, offset: nat, strtod: bool, address: nat)
    requires offset < |s| && Compiled(s, strtod, address)
    ensures !strtod ==> Astray(offset, address) == offset + WORD - address > |s|
  {
    if !strtod {
      AtofNeverRight(offset, |s|, address, 0);
    }
  }

  // ---------------------------------------------------------------- chains of parsed items

  /** What a successful parse_value leaves behind. */
  ghost predicate Built(item: Item, t: Tree, v: Json)
    reads item, Reach(t)
  {
    t.item == item && t.key == item.key && Plain(t) && Distinct(t) && Shaped(t) && Means(t, v)
  }

  lemma {:induction false} BuiltKey(item: Item, t: Tree, v: Json)
    requires Built(item, t, v)
    ensures t.key == item.key
  {
  }

  lemma {:induction false} BuiltReach(item: Item, t: Tree, v: Json)
    requires Built(item, t, v)
    ensures Reach(t) == {item} + Buffer(item.key) + Below(t)
    ensures Plain(t) && Distinct(t) && Shaped(t) && Means(t, v) && t.item == item
  {
    PlainAllOwns(t.kids);
  }

  lemma {:induction false} EmptyLeaf(item: Item)
    requires item.child == null && item.valuestring == null && !item.isReference && !item.stringIsConst
    ensures var leaf := Leaf(item);
            && Plain(leaf) && Distinct(leaf) && Shaped(leaf) && Below(leaf) == {}
            && Reach(leaf) == {item} + Buffer(item.key)
  {
    NothingOwned([]);
  }

  lemma {:induction false} LeafParts(item: Item)
    requires !item.isReference && !item.stringIsConst
    ensures Plain(Leaf(item)) && Distinct(Leaf(item)) && Reach(Leaf(item)) == {item} + Buffer(item.key)
  {
    NothingOwned([]);
  }

  lemma {:induction false} LeafBuilt(item: Item, v: Json)
    requires item.child == null && item.valuestring == null && !item.isReference && !item.stringIsConst
    requires match v
             case Null => item.kind == NullKind
             case False => item.kind == FalseKind
             case True => item.kind == TrueKind
             case Number(digits) => item.kind == NumberKind && item.number == digits
             case _ => false
    ensures Built(item, Leaf(item), v) && Below(Leaf(item)) == {}
  {
    NothingOwned([]);
  }

  lemma {:induction false} StringBuilt(item: Item, s: string)
    requires item.child == null && !item.isReference && !item.stringIsConst
    requires item.kind == StringKind && HoldsText(item.valuestring, s) && item.valuestring != item.key
    ensures var t := Leaf(item).(value := item.valuestring);
            Built(item, t, String(s)) && Below(t) == {item.valuestring}
  {
    NothingOwned([]);
  }

  lemma {:induction false} EmptyRow()
    ensures Row([], []) && ReachAll([]) == {}
  {
  }

  /** One item on its own is a chain. */
  lemma {:induction false} SingleRow(t: Tree)
    requires Plain(t) && Distinct(t) && Shaped(t) && t.item.next == null && t.item.prev == null
    ensures Linked([t]) && DistinctAll([t]) && OwnedAll([t]) == ReachAll([t]) == Reach(t)
  {
    hide Owned, Reach, Distinct, Plain, Shaped;
    assert [] + [t] == [t];
    EmptyRow();
    ChainGrows([], t);
  }

  lemma {:induction false} RowParts(ts: seq<Tree>, vs: seq<Json>)
    requires Row(ts, vs)
    ensures Linked(ts) && Grown(ts, vs) && DistinctAll(ts) && PlainAll(ts)
    ensures forall i :: 0 <= i < |ts| ==> Shaped(ts[i])
    ensures OwnedAll(ts) == ReachAll(ts) && Inside(ts) <= ReachAll(ts)
    ensures forall o :: o in Heads(ts) ==> o in ReachAll(ts)
    ensures forall o :: o in Last(ts) ==> o in ReachAll(ts)
  {
    PlainAllOwns(ts);
    InsideReached(ts);
    ItemsReached(ts);
  }

  lemma {:induction false} RowGrows(kids: seq<Tree>, vals: seq<Json>, leaf: Tree, t: Tree, v: Json)
    requires Linked(kids + [leaf]) && leaf.item == t.item
    requires Grown(kids, vals) && DistinctAll(kids) && PlainAll(kids)
    requires Plain(t) && Distinct(t) && Shaped(t) && Means(t, v) && Reach(t) !! ReachAll(kids)
    ensures Row(kids + [t], vals + [v])
    ensures ReachAll(kids + [t]) == ReachAll(kids) + Reach(t)
  {
    ChainGrows(kids, t);
    LinkedItems(kids + [leaf], kids + [t]);
  }

  lemma {:induction false} ElementGrows(kids: seq<Tree>, vals: seq<Json>, leaf: Tree, item: Item, t: Tree, v: Json)
    requires Linked(kids + [leaf]) && leaf.item == item && Grown(kids, vals) && DistinctAll(kids) && PlainAll(kids)
    requires Built(item, t, v) && {item} + Buffer(item.key) + Below(t) !! ReachAll(kids)
    ensures Row(kids + [t], vals + [v]) && t.item == item
    ensures ReachAll(kids + [t]) == ReachAll(kids) + {item} + Buffer(item.key) + Below(t)
  {
    hide *;
    BuiltReach(item, t, v);
    RowGrows(kids, vals, leaf, t, v);
  }

  /** A chain whose last item is still empty can be deleted. */
  lemma {:induction false} PartialRow(kids: seq<Tree>, vals: seq<Json>, item: Item)
    requires Linked(kids + [Leaf(item)]) && Grown(kids, vals) && DistinctAll(kids) && PlainAll(kids)
    requires item.child == null && item.valuestring == null && !item.isReference && !item.stringIsConst
    requires {item} + Buffer(item.key) !! ReachAll(kids)
    ensures var ts := kids + [Leaf(item)];
            && DistinctAll(ts) && (forall i :: 0 <= i < |ts| ==> Shaped(ts[i]))
            && OwnedAll(ts) == ReachAll(kids) + {item} + Buffer(item.key) == ReachAll(ts)
  {
    hide Owned, Distinct, DistinctAll, PlainAll, Inside, Means;
    var leaf := Leaf(item);
    LeafParts(item);
    ChainGrows(kids, leaf);
  }

  /** The finished chain becomes the children of the array. */
  lemma {:induction false} ArrayBuilt(item: Item, kids: seq<Tree>, vals: seq<Json>)
    requires Row(kids, vals) && item !in ReachAll(kids) && Buffer(item.key) !! ReachAll(kids)
    requires item.kind == ArrayKind && item.child == First(kids) && item.valuestring == null
    requires !item.isReference && !item.stringIsConst
    ensures var t := Tree(item, false, false, null, item.key, kids);
            Built(item, t, Array(vals)) && Below(t) == ReachAll(kids)
  {
    RowParts(kids, vals);
  }

  /** The names of the items of a chain. */
  ghost predicate Named(ts: seq<Tree>, members: seq<Member>)
    reads Inside(ts)
  {
    InsideReached(ts);
    |ts| == |members| && forall i :: 0 <= i < |ts| ==> HoldsText(ts[i].key, members[i].key)
  }

  function Values(members: seq<Member>): (vs: seq<Json>)
    ensures |vs| == |members|
  {
    if members == [] then [] else Values(members[..|members| - 1]) + [members[|members| - 1].value]
  }

  lemma {:induction false} ValuesAt(members: seq<Member>, i: nat)
    requires i < |members|
    ensures Values(members)[i] == members[i].value
    decreases |members|
  {
    if i < |members| - 1 {
      ValuesAt(members[..|members| - 1], i);
    }
  }

  ghost predicate NamedRow(ts: seq<Tree>, members: seq<Member>)
    reads ReachAll(ts)
  {
    InsideReached(ts);
    Row(ts, Values(members)) && Named(ts, members)
  }

  lemma {:induction false} NamedRowParts(ts: seq<Tree>, members: seq<Member>)
    requires NamedRow(ts, members)
    ensures Row(ts, Values(members)) && Named(ts, members)
  {
  }

  lemma {:induction false} LastOutside(ts: seq<Tree>)
    requires DistinctAll(ts) && PlainAll(ts)
    ensures forall o :: o in Last(ts) ==> o !in Inside(ts)
  {
    if ts != [] {
      HeadsOutside(ts, |ts| - 1);
    }
  }

  lemma {:induction false} EmptyNamedRow()
    ensures NamedRow([], []) && ReachAll([]) == {}
  {
    EmptyRow();
  }

  lemma {:induction false} NamedRowGrows(kids: seq<Tree>, members: seq<Member>, leaf: Tree, t: Tree, m: Member)
    requires Linked(kids + [leaf]) && leaf.item == t.item
    requires Grown(kids, Values(members)) && Named(kids, members) && DistinctAll(kids) && PlainAll(kids)
    requires Plain(t) && Distinct(t) && Shaped(t) && Means(t, m.value) && Reach(t) !! ReachAll(kids)
    requires HoldsText(t.key, m.key)
    ensures NamedRow(kids + [t], members + [m])
    ensures ReachAll(kids + [t]) == ReachAll(kids) + Reach(t)
  {
    RowGrows(kids, Values(members), leaf, t, m.value);
    assert (members + [m])[..|members|] == members;
  }

  lemma {:induction false} ObjectMeans(kids: seq<Tree>, members: seq<Member>)
    requires NamedRow(kids, members)
    ensures |kids| == |members|
    ensures forall i :: 0 <= i < |members| ==>
              HoldsText(kids[i].key, members[i].key) && Means(kids[i], members[i].value)
  {
    forall i | 0 <= i < |members| ensures Means(kids[i], members[i].value) {
      ValuesAt(members, i);
    }
  }

  lemma {:induction false} ObjectBuilt(item: Item, kids: seq<Tree>, members: seq<Member>)
    requires NamedRow(kids, members) && item !in ReachAll(kids) && Buffer(item.key) !! ReachAll(kids)
    requires item.kind == ObjectKind && item.child == First(kids) && item.valuestring == null
    requires !item.isReference && !item.stringIsConst
    ensures var t := Tree(item, false, false, null, item.key, kids);
            Built(item, t, Object(members)) && Below(t) == ReachAll(kids)
  {
    hide Reach, ReachAll, Owned, OwnedAll, HoldsText, Inside, Row, NamedRow, Named, Values;
    var t := Tree(item, false, false, null, item.key, kids);
    NamedRowParts(kids, members);
    RowParts(kids, Values(members));
    ObjectMeans(kids, members);
    assert Means(t, Object(members));
    assert Shaped(t);
    assert Below(t) == ReachAll(kids);
    assert Distinct(t);
  }

  /** The same for a member whose name has its own buffer. */
  lemma {:induction false} EntryGrows(kids: seq<Tree>, members: seq<Member>, leaf: Tree, item: Item, t: Tree, m: Member)
    requires Linked(kids + [leaf]) && leaf.item == item && Grown(kids, Values(members)) && Named(kids, members)
    requires DistinctAll(kids) && PlainAll(kids) && HoldsText(item.key, m.key)
    requires Built(item, t, m.value) && {item} + Buffer(item.key) + Below(t) !! ReachAll(kids)
    ensures NamedRow(kids + [t], members + [m]) && t.item == item
    ensures ReachAll(kids + [t]) == ReachAll(kids) + {item} + Buffer(item.key) + Below(t)
  {
    hide *;
    BuiltReach(item, t, m.value);
    BuiltKey(item, t, m.value);
    NamedRowGrows(kids, members, leaf, t, m);
  }

  // ---------------------------------------------------------------- the parse buffer

  class ParseBuffer {
    const content: string
    const hooks: Allocator
    const strtod: bool      // GPRS_CSDK is not defined
    const address: nat      // of number_c_string
    var offset: nat
    var depth: nat
    ghost var lost: bool    // the cursor has been moved by an address

    constructor (value: string, hooks: Allocator, strtod: bool, address: nat)
      requires Terminated(value)
      ensures content == value && this.hooks == hooks && this.strtod == strtod && this.address == address
      ensures offset == 0 && depth == 0 && !lost
    {
      content, this.hooks, this.strtod, this.address := value, hooks, strtod, address;
      offset, depth, lost := 0, 0, false;
    }

    /** The cursor may still be relied on. */
    ghost predicate Ready()
      reads this`lost, this`depth
    {
      Terminated(content) && Compiled(content, strtod, address) && !lost && depth <= NESTING_LIMIT
    }

    /** A cursor that is lost has left the text. */
    ghost predicate InPlace()
      reads this`lost, this`offset
    {
      if lost then !strtod && offset > |content| else offset <= |content|
    }

    /** The value at `p` comes to parse_number, and this moves the cursor by an address. */
    ghost predicate Misled(p: nat, d: nat)
      requires Terminated(content) && p < |content| && d <= NESTING_LIMIT
    {
      !strtod && NumberMet(content, p, d)
    }

    ghost predicate MisledInItems(p: nat, d: nat)
      requires Terminated(content) && p < |content| && d <= NESTING_LIMIT
    {
      !strtod && NumberMetInItems(content, p, d)
    }

    ghost predicate MisledInMember(p: nat, d: nat)
      requires Terminated(content) && p < |content| && d <= NESTING_LIMIT
    {
      !strtod && NumberMetInMember(content, p, d)
    }

    ghost predicate MisledInMembers(p: nat, d: nat)
      requires Terminated(content) && p < |content| && d <= NESTING_LIMIT
    {
      !strtod && NumberMetInMembers(content, p, d)
    }

    /** buffer_skip_whitespace, with the step back from the end of the buffer. */
    method SkipWhitespace()
      requires Terminated(content)
      modifies this`offset
      ensures old(offset) <= |content| ==> offset == SkipBlanks(content, old(offset))
      ensures old(offset) > |content| ==> offset == old(offset)
      ensures old(offset) < |content| ==>
                && old(offset) <= offset < |content|
                && (forall i :: old(offset) <= i < offset ==> content[i] as int <= 32)
                && (content[offset] as int > 32 || offset == |content| - 1)
    {
      while offset < |content| && content[offset] <= ' '
        invariant old(offset) <= offset && (old(offset) <= |content| ==> offset <= |content|)
        invariant offset <= |content| ==> SkipBlanks(content, offset) == SkipBlanks(content, old(offset))
        invariant old(offset) > |content| ==> offset == old(offset)
        invariant forall i :: old(offset) <= i < offset ==> content[i] as int <= 32
        decreases |content| - offset
      {
        offset := offset + 1;
      }
      if offset == |content| {
        offset := offset - 1;
      }
    }

    // ---------------------------------------------------------------- strings

    /** First pass of parse_string: the closing quote and the number of bytes that escapes save. */
    method MeasureString(start: nat) returns (found: bool, inputEnd: nat, skippedBytes: nat)
      requires start <= |content|
      ensures found <==> ClosingQuote(content, start).Some?
      ensures found ==> ClosingQuote(content, start) == Some(inputEnd) && start <= inputEnd < |content|
      ensures found ==> skippedBytes == inputEnd - start - Reserved(content, start, inputEnd)
    {
      inputEnd, skippedBytes, found := start, 0, false;
      while inputEnd < |content| && content[inputEnd] != '\"'
        invariant start <= inputEnd <= |content|
        invariant ClosingQuote(content, start) == ClosingQuote(content, inputEnd)
        invariant skippedBytes == inputEnd - start - Reserved(content, start, inputEnd)
        invariant inputEnd == start || !Lead(content, start, inputEnd - 1)
      {
        if content[inputEnd] == '\\' {
          if inputEnd + 1 >= |content| {
            return;
          }
          assert Lead(content, start, inputEnd) && !Lead(content, start, inputEnd + 1);
          skippedBytes := skippedBytes + 1;
          inputEnd := inputEnd + 1;
        }
        inputEnd := inputEnd + 1;
      }
      found := inputEnd < |content|;
    }

    /** How many bytes the second pass has written at most when it stands at `p`. */
    ghost function Room(start: nat, e: nat, p: nat): nat
      requires start <= e <= |content| && start <= p <= e + 1
    {
      if p <= e then Reserved(content, start, p) else Reserved(content, start, e) + 1
    }

    lemma {:induction false} RoomStep(start: nat, e: nat, p: nat)
      requires start <= p < e < |content|
      ensures match NextBytes(content, p, e)
              case None => true
              case Some((bytes, n)) =>
                && p + n <= e + 1 && Room(start, e, p + n) >= Room(start, e, p) + |bytes|
                && Room(start, e, p + n) <= Reserved(content, start, e) + 1
    {
      hide Reserved, Utf8, Utf16Literal;
      ReservedStep(content, start, p, e);
      if content[p] == '\\' && content[p + 1] == 'u' && Utf16Literal(content, p, e).Some? {
        Utf8Length(content, p, e);
      }
    }

    /** The loop body of the second pass: one byte or one escape; 0 on a bad escape. */
    method DecodeNext(inputPointer: nat, inputEnd: nat, output: array<char>, length: nat)
      returns (sequenceLength: nat, written: nat)
      requires inputPointer < inputEnd < |content|
      requires NextBytes(content, inputPointer, inputEnd).Some? ==>
                 length + |NextBytes(content, inputPointer, inputEnd).value.0| < output.Length
      requires length < output.Length
      modifies output
      ensures output[..length] == old(output[..length])
      ensures match NextBytes(content, inputPointer, inputEnd)
              case None => sequenceLength == 0
              case Some((bytes, n)) =>
                && sequenceLength == n && written == |bytes| && length + written < output.Length
                && output[length..length + written] == bytes
    {
      sequenceLength, written := 0, 0;
      if content[inputPointer] != '\\' {
        output[length] := content[inputPointer];
        sequenceLength, written := 1, 1;
      } else {
        var c := content[inputPointer + 1];
        if c == 'u' {
          sequenceLength, written := Utf16LiteralToUtf8(content, inputPointer, inputEnd, output, length);
          return;
        } else if c == 'b' {
          output[length] := 8 as char;
        } else if c == 'f' {
          output[length] := 12 as char;
        } else if c == 'n' {
          output[length] := '\n';
        } else if c == 'r' {
          output[length] := '\r';
        } else if c == 't' {
          output[length] := '\t';
        } else if c == '\"' || c == '\\' || c == '/' {
          output[length] := c;
        } else {
          return;
        }
        sequenceLength, written := 2, 1;
      }
    }

    /**
     Second pass of parse_string. The buffer of the size computed by the first pass suffices,
     although the passes may step differently through a bad \u escape.
     */
    method DecodeString(start: nat, inputEnd: nat, output: array<char>)
      returns (ok: bool, inputPointer: nat, length: nat)
      requires start <= inputEnd < |content| && content[inputEnd] == '\"'
      requires output.Length == Reserved(content, start, inputEnd) + 2
      modifies output
      ensures ok <==> Unescape(content, start, inputEnd).Some?
      ensures ok ==> length < output.Length && output[length] == '\0'
                     && Unescape(content, start, inputEnd) == Some(output[..length])
      ensures inputPointer <= inputEnd + 1
    {
      hide NextBytes, Reserved, Lead;
      inputPointer, length, ok := start, 0, true;
      assert output[..0] == [];
      PrependNothing(Unescape(content, start, inputEnd));
      while inputPointer < inputEnd
        invariant start <= inputPointer <= inputEnd + 1
        invariant length <= Room(start, inputEnd, inputPointer) && length < output.Length
        invariant Unescape(content, start, inputEnd)
                  == Prepend(output[..length], Unescape(content, inputPointer, inputEnd))
        decreases inputEnd - inputPointer
      {
        ghost var before := output[..length];
        RoomStep(start, inputEnd, inputPointer);
        var sequenceLength, written := DecodeNext(inputPointer, inputEnd, output, length);
        if sequenceLength == 0 {
          ok := false;
          return;
        }
        assert output[..length + written] == before + output[length..length + written];
        inputPointer, length := inputPointer + sequenceLength, length + written;
        PrependAssociates(before, output[length - written..length], Unescape(content, inputPointer, inputEnd));
      }
      ghost var bytes := output[..length];
      output[length] := '\0';
      assert output[..length] == bytes == bytes + [];
    }

    /** parse_string: on success the item owns a new buffer with the bytes of the literal at the cursor. */
    method ParseString(item: Item) returns (ok: bool)
      requires Terminated(content) && offset < |content| && item.valuestring == null
      modifies this`offset, hooks, item`kind, item`valuestring
      ensures offset <= |content|
      ensures ok ==> ReadString(content, old(offset)).Some?
                     && offset == ReadString(content, old(offset)).value.1
                     && HoldsText(item.valuestring, ReadString(content, old(offset)).value.0)
                     && fresh(item.valuestring) && item.kind == StringKind
                     && hooks.live == old(hooks.live) + {item.valuestring} && hooks.refusals == old(hooks.refusals)
      ensures !ok ==> item.valuestring == null && item.kind == old(item.kind) && hooks.live == old(hooks.live)
      ensures !ok ==> ReadString(content, old(offset)).None? || hooks.refusals > old(hooks.refusals)
    {
      hide Unescape, ClosingQuote, Reserved;
      ok := false;
      if content[offset] != '\"' {
        offset := offset + 1;
        return;
      }
      var start := offset + 1;
      var found, inputEnd, skippedBytes := MeasureString(start);
      if !found {
        offset := start;
        return;
      }
      var allocationLength := inputEnd - offset - skippedBytes;
      var output := hooks.Allocate(allocationLength + 1);
      if output == null {
        offset := start;
        return;
      }
      var inputPointer, length;
      ok, inputPointer, length := DecodeString(start, inputEnd, output);
      if !ok {
        hooks.Free(output);
        offset := inputPointer;
        return;
      }
      item.kind := StringKind;
      item.valuestring := output;
      offset := inputEnd + 1;
      TextInBuffer(output, output[..length]);
    }

    // ---------------------------------------------------------------- numbers

    /** The loop of parse_number: at most 63 number bytes. */
    method CollectNumber() returns (numberCString: string)
      requires Terminated(content) && offset < |content|
      ensures |numberCString| == NumberRun(content, offset, NUMBER_BUFFER)
      ensures numberCString == content[offset..offset + |numberCString|]
    {
      hide NumberRun, NumberByte;
      numberCString := "";
      var i := 0;
      while i < NUMBER_BUFFER && offset + i < |content| && NumberByte(content[offset + i])
        invariant i <= NUMBER_BUFFER && offset + i <= |content| && numberCString == content[offset..offset + i]
        invariant NumberRun(content, offset, NUMBER_BUFFER) == i + NumberRun(content, offset + i, NUMBER_BUFFER - i)
      {
        RunUnfolds(content, offset + i, NUMBER_BUFFER - i);
        assert content[offset..offset + i + 1] == content[offset..offset + i] + [content[offset + i]];
        numberCString := numberCString + [content[offset + i]];
        i := i + 1;
      }
      RunUnfolds(content, offset + i, NUMBER_BUFFER - i);
    }

    /**
     parse_number. strtod takes the longest numeral and reports its end. atof reports no end: after_end stays NULL, so
     there is no error, and the cursor is moved by the distance from NULL to the number buffer.
     */
    method ParseNumber(item: Item) returns (ok: bool)
      requires Terminated(content) && offset < |content| && !lost && (strtod || address <= WORD)
      modifies this`offset, this`lost, item`kind, item`number
      ensures lost <==> !strtod
      ensures ok ==> item.kind == NumberKind
      ensures strtod && ok ==>
                JsonReader.ParseNumber(content, old(offset)) == Some((Number(item.number), offset))
                && offset <= |content|
      ensures strtod && !ok ==> JsonReader.ParseNumber(content, old(offset)).None? && offset == old(offset)
      ensures !strtod ==>
                && ok && offset == Astray(old(offset), address)
                && item.number == AtofText(content[old(offset)..][..NumberRun(content, old(offset), NUMBER_BUFFER)])
    {
      hide Numeral, NumeralPrefix, NumberRun, NumberByte, JsonReader.ParseNumber;
      var numberCString := CollectNumber();
      NumberResult(content, offset, |numberCString|);
      var used := NumeralPrefix(numberCString, |numberCString|);
      if strtod {
        if used == 0 {
          return false;
        }
        item.number := numberCString[..used];
        offset := offset + used;
      } else {
        assert content[offset..][..|numberCString|] == numberCString;
        item.number := AtofText(numberCString);
        offset := (offset + (WORD - address)) % WORD;
        lost := true;
      }
      item.kind := NumberKind;
      return true;
    }

    // ---------------------------------------------------------------- values

    /** The head of the loops of parse_array and parse_object: a new item behind the last one. */
    method AttachItem(head: Item?, current: Item?, ghost kids: seq<Tree>, ghost vals: seq<Json>)
      returns (newHead: Item?, newItem: Item?)
      requires Row(kids, vals) && hooks !in ReachAll(kids)
      requires head == First(kids) && current == if kids == [] then null else kids[|kids| - 1].item
      modifies hooks, Last(kids)`next
      ensures newItem == null ==> newHead == head && Row(kids, vals)
                                  && hooks.live == old(hooks.live) && hooks.refusals == old(hooks.refusals) + 1
      ensures newItem != null ==>
                && fresh(newItem) && newHead == First(kids + [Leaf(newItem)])
                && Linked(kids + [Leaf(newItem)]) && Grown(kids, vals)
                && newItem.child == null && newItem.valuestring == null && newItem.key == null
                && !newItem.isReference && !newItem.stringIsConst
                && hooks.live == old(hooks.live) + {newItem} && hooks.refusals == old(hooks.refusals)
    {
      hide Reach, ReachAll, Owned, OwnedAll, Distinct, DistinctAll, Plain, PlainAll, Inside, Shaped, Means, Grown;
      newHead := head;
      ItemsReached(kids);
      InsideReached(kids);
      assert allocated(Inside(kids)) && allocated(ReachAll(kids)) && allocated(Heads(kids));
      newItem := hooks.NewItem();
      if newItem == null {
        return;
      }
      if head == null {
        newHead := newItem;
      } else {
        HeadsOutside(kids, |kids| - 1);
        HeadsDiffer(kids);
        current.next := newItem;
        newItem.prev := current;
      }
    }

    /** The failure exit of both loops: delete the items attached so far, the last of which is still empty. */
    method AbandonItems(head: Item?, item: Item, ghost kids: seq<Tree>, ghost vals: seq<Json>)
      requires Linked(kids + [Leaf(item)]) && Grown(kids, vals) && DistinctAll(kids) && PlainAll(kids)
      requires item.child == null && item.valuestring == null && !item.isReference && !item.stringIsConst
      requires {item} + Buffer(item.key) !! ReachAll(kids) && hooks !in ReachAll(kids)
      requires head == First(kids + [Leaf(item)]) && ReachAll(kids) + {item} + Buffer(item.key) <= hooks.live
      modifies hooks
      ensures hooks.live == old(hooks.live) - ReachAll(kids) - {item} - Buffer(item.key)
      ensures hooks.refusals == old(hooks.refusals)
    {
      hide Reach, ReachAll, Owned, OwnedAll, Distinct, DistinctAll, Plain, PlainAll, Inside, Shaped, Means, Grown,
           Linked;
      PartialRow(kids, vals, item);
      hooks.Delete(head, kids + [Leaf(item)]);
    }

    /** The first cases of parse_value: null, false and true. */
    method ParseWord(item: Item) returns (ok: bool, ghost v: Json)
      requires Terminated(content) && offset < |content|
      modifies this`offset, item`kind
      ensures offset <= |content| && (!ok ==> offset == old(offset) && item.kind == old(item.kind))
      ensures ok ==>
                content[old(offset)] in "nft" && At(content, old(offset), Word(v)) && offset == old(offset) + |Word(v)|
      ensures ok ==> (v.Null? && item.kind == NullKind) || (v.False? && item.kind == FalseKind)
                     || (v.True? && item.kind == TrueKind)
      ensures !ok ==> !At(content, offset, "null") && !At(content, offset, "false") && !At(content, offset, "true")
    {
      ok, v := true, Null;
      WordHeads(content, offset);
      if offset + 4 <= |content| && content[offset..offset + 4] == "null" {
        item.kind := NullKind;
        offset := offset + 4;
      } else if offset + 5 <= |content| && content[offset..offset + 5] == "false" {
        item.kind, v := FalseKind, False;
        offset := offset + 5;
      } else if offset + 4 <= |content| && content[offset..offset + 4] == "true" {
        item.kind, v := TrueKind, True;
        offset := offset + 4;
      } else {
        ok := false;
      }
    }

    /** A name and its colon: the name moves from the value to the key of the item. */
    method ParseName(item: Item) returns (ok: bool)
      requires Ready() && offset + 1 < |content| && item.valuestring == null && item.key == null
      modifies this`offset, hooks, item`kind, item`valuestring, item`key
      ensures InPlace() && item.valuestring == null && fresh(Buffer(item.key))
      ensures hooks.live == old(hooks.live) + Buffer(item.key)
      ensures ok ==> item.key != null && offset < |content|
      ensures var name := ReadString(content, SkipBlanks(content, old(offset) + 1));
              if ok then
                && hooks.refusals == old(hooks.refusals) && name.Some? && HoldsText(item.key, name.value.0)
                && content[SkipBlanks(content, name.value.1)] == ':'
                && SkipBlanks(content, name.value.1) + 1 <= |content|
                && offset == SkipBlanks(content, SkipBlanks(content, name.value.1) + 1)
              else
                || hooks.refusals > old(hooks.refusals) || name.None?
                || content[SkipBlanks(content, name.value.1)] != ':'
    {
      hide SkipBlanks, ReadString, HoldsText;
      offset := offset + 1;
      SkipWhitespace();
      ok := ParseString(item);
      if ok {
        SkipWhitespace();
        item.key := item.valuestring;
        item.valuestring := null;
        if offset >= |content| || content[offset] != ':' {
          ok := false;
          return;
        }
        offset := offset + 1;
        SkipWhitespace();
      }
    }

    /**
     parse_value. On success the item stands for the value at the cursor, on failure nothing stays allocated. With atof
     a number at the cursor also succeeds, but the cursor is lost, and so is every container around it.
     */
    method ParseValue(item: Item) returns (ok: bool, ghost t: Tree, ghost v: Json)
      requires Ready() && offset < |content|
      requires item.child == null && item.valuestring == null && !item.isReference && !item.stringIsConst
      modifies this`offset, this`depth, this`lost, hooks, item`kind, item`valuestring, item`child, item`number
      ensures InPlace() && (lost ==> Misled(old(offset), old(depth)))
      ensures ok && !lost ==> !Misled(old(offset), old(depth))
                              && JsonReader.ParseValue(content, old(offset), old(depth)) == Some((v, offset))
      ensures ok && lost ==> offset == Astray(old(offset), address) && v == Number(item.number)
      ensures lost ==> (ok <==> NumberStart(content[old(offset)]))
      ensures ok ==> depth == old(depth) && Built(item, t, v) && fresh(Below(t))
                     && hooks.live == old(hooks.live) + Below(t) && hooks.refusals == old(hooks.refusals)
      ensures !ok ==> item.child == null && item.valuestring == null && hooks.live == old(hooks.live)
      ensures !ok ==> JsonReader.ParseValue(content, old(offset), old(depth)).None?
                      || hooks.refusals > old(hooks.refusals) || lost
      decreases |content| - offset, 4
    {
      hide Reach, ReachAll, Owned, OwnedAll, ReadString, JsonReader.ParseNumber, ParseItems, ParseMembers, Built,
           HoldsText, JsonReader.ParseValue, NumberMet;
      ok, t, v := false, Leaf(item), Null;
      ok, v := ParseWord(item);
      if ok {
        WordReads(content, old(offset), depth, v);
        LeafBuilt(item, v);
        return;
      }
      if content[offset] != '[' && content[offset] != '{' {
        LeafReads(content, offset, depth);
      }
      if content[offset] == '\"' {
        ghost var read := ReadString(content, offset);
        ok := ParseString(item);
        if ok {
          t, v := Leaf(item).(value := item.valuestring), String(read.value.0);
          StringBuilt(item, read.value.0);
        }
      } else if content[offset] == '-' || '0' <= content[offset] <= '9' {
        AtofLeaves(content, offset, strtod, address);
        ok := ParseNumber(item);
        if ok {
          t, v := Leaf(item), Number(item.number);
          LeafBuilt(item, v);
        }
      } else if content[offset] == '[' {
        ok, t, v := ParseArray(item);
      } else if content[offset] == '{' {
        ok, t, v := ParseObject(item);
      }
    }

    // ---------------------------------------------------------------- arrays

    /** The loop body of parse_array behind the new item: the value and the white space around it. */
    method ParseItemValue(item: Item) returns (ok: bool, ghost t: Tree, ghost v: Json, ghost end: nat)
      requires Ready() && offset + 1 < |content|
      requires item.child == null && item.valuestring == null && !item.isReference && !item.stringIsConst
      modifies this`offset, this`depth, this`lost, hooks, item`kind, item`valuestring, item`child, item`number
      ensures InPlace() && (lost ==> Misled(SkipBlanks(content, old(offset) + 1), old(depth)))
      ensures ok && !lost ==>
                && !Misled(SkipBlanks(content, old(offset) + 1), old(depth)) && end <= |content|
                && JsonReader.ParseValue(content, SkipBlanks(content, old(offset) + 1), old(depth)) == Some((v, end))
                && offset == SkipBlanks(content, end)
      ensures ok ==> depth == old(depth) && Built(item, t, v) && fresh(Below(t))
                     && hooks.live == old(hooks.live) + Below(t) && hooks.refusals == old(hooks.refusals)
      ensures !ok ==> item.child == null && item.valuestring == null && hooks.live == old(hooks.live)
      ensures !ok ==> JsonReader.ParseValue(content, SkipBlanks(content, old(offset) + 1), old(depth)).None?
                      || hooks.refusals > old(hooks.refusals) || lost
      decreases |content| - offset, 0
    {
      hide Reach, ReachAll, Owned, OwnedAll, Below, Distinct, DistinctAll, Plain, PlainAll, Shaped, Means,
           JsonReader.ParseValue, SkipBlanks, Built, NumberMet, Astray;
      end := 0;
      offset := offset + 1;
      SkipWhitespace();
      ok, t, v := ParseValue(item);
      if ok {
        BuiltReach(item, t, v);
        assert allocated(Reach(t)) && this !in Reach(t);
        end := offset;
        SkipWhitespace();
      }
    }

    /** The loop body of parse_array: attach a new item and parse the next value into it. */
    method ParseElement(head: Item?, current: Item?, ghost kids: seq<Tree>, ghost vals: seq<Json>)
      returns (ok: bool, newHead: Item?, newItem: Item?, ghost newKids: seq<Tree>, ghost v: Json, ghost end: nat)
      requires Ready() && offset + 1 < |content|
      requires Row(kids, vals) && ReachAll(kids) <= hooks.live && hooks !in ReachAll(kids) && this !in ReachAll(kids)
      requires head == First(kids) && current == if kids == [] then null else kids[|kids| - 1].item
      modifies this`offset, this`depth, this`lost, hooks, Last(kids)`next
      ensures InPlace() && (lost ==> Misled(SkipBlanks(content, old(offset) + 1), old(depth)))
      ensures !ok ==> hooks.live == old(hooks.live) - ReachAll(kids)
      ensures !ok ==> JsonReader.ParseValue(content, SkipBlanks(content, old(offset) + 1), old(depth)).None?
                      || hooks.refusals > old(hooks.refusals) || lost
      ensures ok && !lost ==>
                && !Misled(SkipBlanks(content, old(offset) + 1), old(depth)) && end <= |content|
                && JsonReader.ParseValue(content, SkipBlanks(content, old(offset) + 1), old(depth)) == Some((v, end))
                && offset == SkipBlanks(content, end)
      ensures ok ==> depth == old(depth) && Row(newKids, vals + [v]) && newKids != []
                     && newHead == First(newKids) && newItem == newKids[|newKids| - 1].item
      ensures ok ==> ReachAll(kids) <= ReachAll(newKids) && fresh(ReachAll(newKids) - ReachAll(kids))
                     && hooks.live == old(hooks.live) + ReachAll(newKids)
                     && hooks.refusals == old(hooks.refusals)
      decreases |content| - offset, 1
    {
      hide Reach, ReachAll, Owned, OwnedAll, Below, Distinct, DistinctAll, Plain, PlainAll, Inside, Shaped, Means,
           Grown, Linked, JsonReader.ParseValue, SkipBlanks, Row, Built, HoldsText, NumberMet;
      ok, newKids, v, end := false, kids, Null, 0;
      RowParts(kids, vals);
      LastOutside(kids);
      assert allocated(ReachAll(kids)) && allocated(Inside(kids)) && allocated(Heads(kids));
      newHead, newItem := AttachItem(head, current, kids, vals);
      if newItem == null {
        RowParts(kids, vals);
        hooks.Delete(newHead, kids);
        return;
      }
      ghost var leaf := Leaf(newItem);
      assert allocated(ReachAll(kids)) && allocated(Inside(kids)) && allocated(Heads(kids))
             && allocated(Heads(kids + [leaf]));
      ghost var t;
      ok, t, v, end := ParseItemValue(newItem);
      assert allocated(Heads(kids + [leaf])) && Linked(kids + [leaf]);
      if !ok {
        LinkedItems(kids + [leaf], kids + [Leaf(newItem)]);
        AbandonItems(newHead, newItem, kids, vals);
        return;
      }
      ElementGrows(kids, vals, leaf, newItem, t, v);
      newKids := kids + [t];
    }

    /** The loop of parse_array; on failure the items attached so far are deleted. */
    method ParseElements() returns (ok: bool, head: Item?, ghost kids: seq<Tree>, ghost vals: seq<Json>)
      requires Ready() && offset + 1 < |content|
      modifies this`offset, this`depth, this`lost, hooks
      ensures InPlace() && (lost ==> MisledInItems(old(offset) + 1, old(depth)))
      ensures ok ==> !lost && !MisledInItems(old(offset) + 1, old(depth)) && depth == old(depth) && offset < |content|
                     && JsonReader.ParseItems(content, old(offset) + 1, old(depth)) == Some((vals, offset + 1))
      ensures ok ==> Row(kids, vals) && head == First(kids) && fresh(ReachAll(kids))
                     && hooks.live == old(hooks.live) + ReachAll(kids) && hooks.refusals == old(hooks.refusals)
      ensures !ok ==> hooks.live == old(hooks.live)
      ensures !ok ==> JsonReader.ParseItems(content, old(offset) + 1, old(depth)).None?
                      || hooks.refusals > old(hooks.refusals) || lost
      decreases |content| - offset, 2
    {
      hide Reach, ReachAll, Owned, OwnedAll, Below, Distinct, DistinctAll, Plain, PlainAll, Inside, Shaped, Means,
           Grown, Linked, JsonReader.ParseValue, JsonReader.ParseItems, SkipBlanks, Row, NumberMet, NumberMetInItems;
      ok, head, kids, vals := false, null, [], [];
      var current: Item? := null;
      var more := true;
      EmptyRow();
      ghost var expected := JsonReader.ParseItems(content, offset + 1, depth);
      ghost var misled := MisledInItems(offset + 1, depth);
      PrefixNothing(expected);
      while more
        invariant InPlace() && depth == old(depth)
        invariant Row(kids, vals) && allocated(ReachAll(kids)) && fresh(ReachAll(kids))
        invariant head == First(kids) && current == if kids == [] then null else kids[|kids| - 1].item
        invariant hooks.live == old(hooks.live) + ReachAll(kids) && hooks.refusals == old(hooks.refusals)
        invariant lost ==> !more && misled
        invariant !lost ==> old(offset) <= offset < |content|
        invariant !lost && more ==>
                    && offset + 1 < |content| && misled == MisledInItems(offset + 1, depth)
                    && expected == PrefixItems(vals, JsonReader.ParseItems(content, offset + 1, depth))
        invariant !lost && !more ==>
                    && kids != [] && !misled
                    && expected == if content[offset] == ']' then Some((vals, offset + 1)) else None
        decreases more, |content| - offset
      {
        ItemsStep(content, offset + 1, depth, vals);
        ItemsMeet(content, offset + 1, depth);
        RowParts(kids, vals);
        var good;
        ghost var v, end;
        good, head, current, kids, v, end := ParseElement(head, current, kids, vals);
        if !good {
          return;
        }
        vals := vals + [v];
        more := offset < |content| && content[offset] == ',';
      }
      if offset >= |content| || content[offset] != ']' {
        RowParts(kids, vals);
        hooks.Delete(head, kids);
        return;
      }
      ok := true;
    }

    /** parse_array. */
    method ParseArray(item: Item) returns (ok: bool, ghost t: Tree, ghost v: Json)
      requires Ready() && offset < |content| && content[offset] == '['
      requires item.child == null && item.valuestring == null && !item.isReference && !item.stringIsConst
      modifies this`offset, this`depth, this`lost, hooks, item`kind, item`child
      ensures InPlace() && (lost ==> Misled(old(offset), old(depth)))
      ensures ok ==> !lost && !Misled(old(offset), old(depth)) && depth == old(depth)
                     && JsonReader.ParseValue(content, old(offset), old(depth)) == Some((v, offset))
      ensures ok ==> Built(item, t, v) && fresh(Below(t))
                     && hooks.live == old(hooks.live) + Below(t) && hooks.refusals == old(hooks.refusals)
      ensures !ok ==> item.child == null && hooks.live == old(hooks.live)
      ensures !ok ==> JsonReader.ParseValue(content, old(offset), old(depth)).None?
                      || hooks.refusals > old(hooks.refusals) || lost
      decreases |content| - offset, 3
    {
      hide Reach, ReachAll, Owned, OwnedAll, Below, Distinct, DistinctAll, Plain, PlainAll, Inside, Shaped, Means,
           Grown, Linked, JsonReader.ParseValue, JsonReader.ParseItems, SkipBlanks, Row, Built, NumberMet,
           NumberMetInItems;
      ok, t, v := false, Leaf(item), Null;
      ArrayUnfolds(content, offset, depth);
      ArrayMeets(content, offset, depth);
      if depth >= NESTING_LIMIT {
        return;
      }
      depth := depth + 1;
      offset := offset + 1;
      SkipWhitespace();
      var head: Item? := null;
      ghost var kids, vals := [], [];
      EmptyRow();
      if !(offset < |content| && content[offset] == ']') {
        offset := offset - 1;
        var good;
        good, head, kids, vals := ParseElements();
        if !good {
          return;
        }
      }
      depth := depth - 1;
      assert allocated(ReachAll(kids));
      item.kind := ArrayKind;
      item.child := head;
      offset := offset + 1;
      ok, t, v := true, Tree(item, false, false, null, item.key, kids), Array(vals);
      ArrayBuilt(item, kids, vals);
    }

    // ---------------------------------------------------------------- objects

    /** The loop body of parse_object behind the new item: its name, the colon and its value. */
    method ParseNameAndValue(item: Item) returns (ok: bool, ghost t: Tree, ghost m: Member, ghost end: nat)
      requires Ready() && offset + 1 < |content|
      requires item.child == null && item.valuestring == null && item.key == null
      requires !item.isReference && !item.stringIsConst
      modifies this`offset, this`depth, this`lost, hooks
      modifies item`kind, item`valuestring, item`child, item`number, item`key
      ensures InPlace() && (lost ==> MisledInMember(old(offset) + 1, old(depth)))
      ensures ok && !lost ==>
                && !MisledInMember(old(offset) + 1, old(depth)) && end <= |content|
                && ParseMember(content, old(offset) + 1, old(depth)) == Some((m, end))
                && offset == SkipBlanks(content, end)
      ensures ok ==> depth == old(depth) && Built(item, t, m.value) && HoldsText(item.key, m.key)
      ensures ok ==> fresh(Below(t)) && fresh(Buffer(item.key)) && item.key !in Below(t)
                     && hooks.live == old(hooks.live) + Below(t) + Buffer(item.key)
                     && hooks.refusals == old(hooks.refusals)
      ensures !ok ==> item.child == null && item.valuestring == null && fresh(Buffer(item.key))
                      && hooks.live == old(hooks.live) + Buffer(item.key)
      ensures !ok ==> ParseMember(content, old(offset) + 1, old(depth)).None?
                      || hooks.refusals > old(hooks.refusals) || lost
      decreases |content| - offset, 0
    {
      hide Reach, ReachAll, Owned, OwnedAll, Below, Distinct, DistinctAll, Plain, PlainAll, Shaped, Means,
           JsonReader.ParseValue, SkipBlanks, ReadString, ParseMember, Built, HoldsText, NumberMet, NumberMetInMember,
           Astray;
      m, end, t := Member("", Null), 0, Leaf(item);
      MemberUnfolds(content, offset + 1, depth);
      MemberMeets(content, offset + 1, depth);
      ghost var name := ReadString(content, SkipBlanks(content, offset + 1));
      ok := ParseName(item);
      if !ok {
        return;
      }
      assert allocated(Buffer(item.key)) && HoldsText(item.key, name.value.0);
      ghost var v;
      ok, t, v := ParseValue(item);
      if !ok {
        return;
      }
      BuiltReach(item, t, v);
      assert allocated(Reach(t)) && this !in Reach(t);
      m, end := Member(name.value.0, v), offset;
      SkipWhitespace();
    }

    /** The loop body of parse_object. */
    method ParseEntry(head: Item?, current: Item?, ghost kids: seq<Tree>, ghost members: seq<Member>)
      returns (ok: bool, newHead: Item?, newItem: Item?, ghost newKids: seq<Tree>, ghost m: Member, ghost end: nat)
      requires Ready() && offset + 1 < |content|
      requires NamedRow(kids, members) && ReachAll(kids) <= hooks.live
      requires hooks !in ReachAll(kids) && this !in ReachAll(kids)
      requires head == First(kids) && current == if kids == [] then null else kids[|kids| - 1].item
      modifies this`offset, this`depth, this`lost, hooks, Last(kids)`next
      ensures InPlace() && (lost ==> MisledInMember(old(offset) + 1, old(depth)))
      ensures !ok ==> hooks.live == old(hooks.live) - ReachAll(kids)
      ensures !ok ==> ParseMember(content, old(offset) + 1, old(depth)).None?
                      || hooks.refusals > old(hooks.refusals) || lost
      ensures ok && !lost ==>
                && !MisledInMember(old(offset) + 1, old(depth)) && end <= |content|
                && ParseMember(content, old(offset) + 1, old(depth)) == Some((m, end))
                && offset == SkipBlanks(content, end)
      ensures ok ==> depth == old(depth) && NamedRow(newKids, members + [m]) && newKids != []
                     && newHead == First(newKids) && newItem == newKids[|newKids| - 1].item
      ensures ok ==> ReachAll(kids) <= ReachAll(newKids) && fresh(ReachAll(newKids) - ReachAll(kids))
                     && hooks.live == old(hooks.live) + ReachAll(newKids) && hooks.refusals == old(hooks.refusals)
      decreases |content| - offset, 1
    {
      hide Reach, ReachAll, Owned, OwnedAll, Below, Distinct, DistinctAll, Plain, PlainAll, Inside, Shaped, Means,
           Grown, Linked, ParseMember, SkipBlanks, Row, NamedRow, Named, HoldsText, Values, Built, NumberMetInMember;
      ok, newKids, m, end := false, kids, Member("", Null), 0;
      NamedRowParts(kids, members);
      RowParts(kids, Values(members));
      LastOutside(kids);
      assert allocated(ReachAll(kids)) && allocated(Inside(kids)) && allocated(Heads(kids));
      newHead, newItem := AttachItem(head, current, kids, Values(members));
      if newItem == null {
        RowParts(kids, Values(members));
        hooks.Delete(newHead, kids);
        return;
      }
      ghost var leaf := Leaf(newItem);
      assert allocated(ReachAll(kids)) && allocated(Inside(kids)) && allocated(Heads(kids))
             && allocated(Heads(kids + [leaf]));
      ghost var t;
      ok, t, m, end := ParseNameAndValue(newItem);
      assert allocated(Heads(kids + [leaf])) && Linked(kids + [leaf]);
      if !ok {
        LinkedItems(kids + [leaf], kids + [Leaf(newItem)]);
        AbandonItems(newHead, newItem, kids, Values(members));
        return;
      }
      EntryGrows(kids, members, leaf, newItem, t, m);
      newKids := kids + [t];
    }

    /** The loop of parse_object; on failure the items attached so far are deleted. */
    method ParseEntries() returns (ok: bool, head: Item?, ghost kids: seq<Tree>, ghost members: seq<Member>)
      requires Ready() && offset + 1 < |content|
      modifies this`offset, this`depth, this`lost, hooks
      ensures InPlace() && (lost ==> MisledInMembers(old(offset) + 1, old(depth)))
      ensures ok ==> !lost && !MisledInMembers(old(offset) + 1, old(depth)) && depth == old(depth) && offset < |content|
                     && ParseMembers(content, old(offset) + 1, old(depth)) == Some((members, offset + 1))
      ensures ok ==> NamedRow(kids, members) && head == First(kids) && fresh(ReachAll(kids))
                     && hooks.live == old(hooks.live) + ReachAll(kids) && hooks.refusals == old(hooks.refusals)
      ensures !ok ==> hooks.live == old(hooks.live)
      ensures !ok ==> ParseMembers(content, old(offset) + 1, old(depth)).None?
                      || hooks.refusals > old(hooks.refusals) || lost
      decreases |content| - offset, 2
    {
      hide Reach, ReachAll, Owned, OwnedAll, Below, Distinct, DistinctAll, Plain, PlainAll, Inside, Shaped, Means,
           Grown, Linked, ParseMember, ParseMembers, SkipBlanks, Row, NamedRow, Named, Values, NumberMetInMember,
           NumberMetInMembers;
      ok, head, kids, members := false, null, [], [];
      var current: Item? := null;
      var more := true;
      EmptyNamedRow();
      ghost var expected := ParseMembers(content, offset + 1, depth);
      ghost var misled := MisledInMembers(offset + 1, depth);
      PrefixNoMembers(expected);
      while more
        invariant InPlace() && depth == old(depth)
        invariant NamedRow(kids, members) && allocated(ReachAll(kids)) && fresh(ReachAll(kids))
        invariant head == First(kids) && current == if kids == [] then null else kids[|kids| - 1].item
        invariant hooks.live == old(hooks.live) + ReachAll(kids) && hooks.refusals == old(hooks.refusals)
        invariant lost ==> !more && misled
        invariant !lost ==> old(offset) <= offset < |content|
        invariant !lost && more ==>
                    && offset + 1 < |content| && misled == MisledInMembers(offset + 1, depth)
                    && expected == PrefixMembers(members, ParseMembers(content, offset + 1, depth))
        invariant !lost && !more ==>
                    && kids != [] && !misled
                    && expected == if content[offset] == '}' then Some((members, offset + 1)) else None
        decreases more, |content| - offset
      {
        MembersStep(content, offset + 1, depth, members);
        MembersMeet(content, offset + 1, depth);
        NamedRowParts(kids, members);
        RowParts(kids, Values(members));
        var good;
        ghost var m, end;
        good, head, current, kids, m, end := ParseEntry(head, current, kids, members);
        if !good {
          return;
        }
        members := members + [m];
        more := offset < |content| && content[offset] == ',';
      }
      if offset >= |content| || content[offset] != '}' {
        NamedRowParts(kids, members);
        RowParts(kids, Values(members));
        hooks.Delete(head, kids);
        return;
      }
      ok := true;
    }

    /** parse_object. */
    method ParseObject(item: Item) returns (ok: bool, ghost t: Tree, ghost v: Json)
      requires Ready() && offset < |content| && content[offset] == '{'
      requires item.child == null && item.valuestring == null && !item.isReference && !item.stringIsConst
      modifies this`offset, this`depth, this`lost, hooks, item`kind, item`child
      ensures InPlace() && (lost ==> Misled(old(offset), old(depth)))
      ensures ok ==> !lost && !Misled(old(offset), old(depth)) && depth == old(depth)
                     && JsonReader.ParseValue(content, old(offset), old(depth)) == Some((v, offset))
      ensures ok ==> Built(item, t, v) && fresh(Below(t))
                     && hooks.live == old(hooks.live) + Below(t) && hooks.refusals == old(hooks.refusals)
      ensures !ok ==> item.child == null && hooks.live == old(hooks.live)
      ensures !ok ==> JsonReader.ParseValue(content, old(offset), old(depth)).None?
                      || hooks.refusals > old(hooks.refusals) || lost
      decreases |content| - offset, 3
    {
      hide Reach, ReachAll, Owned, OwnedAll, Below, Distinct, DistinctAll, Plain, PlainAll, Inside, Shaped, Means,
           Grown, Linked, JsonReader.ParseValue, ParseMembers, SkipBlanks, Row, NamedRow, Built, NumberMet,
           NumberMetInMembers;
      ok, t, v := false, Leaf(item), Null;
      ObjectUnfolds(content, offset, depth);
      ObjectMeets(content, offset, depth);
      if depth >= NESTING_LIMIT {
        return;
      }
      depth := depth + 1;
      offset := offset + 1;
      SkipWhitespace();
      var head: Item? := null;
      ghost var kids, members := [], [];
      EmptyNamedRow();
      if !(offset < |content| && content[offset] == '}') {
        offset := offset - 1;
        var good;
        good, head, kids, members := ParseEntries();
        if !good {
          return;
        }
      }
      depth := depth - 1;
      assert allocated(ReachAll(kids));
      item.kind := ObjectKind;
      item.child := head;
      offset := offset + 1;
      ok, t, v := true, Tree(item, false, false, null, item.key, kids), Object(members);
      ObjectBuilt(item, kids, members);
    }

    // ---------------------------------------------------------------- documents

    /** The check of cJSON_ParseWithOpts for garbage behind the value. */
    method AtTerminator() returns (ok: bool)
      requires Terminated(content)
      modifies this`offset
      ensures old(offset) <= |content| ==>
                offset == SkipBlanks(content, old(offset)) < |content| && (ok <==> content[offset] == '\0')
      ensures old(offset) > |content| ==> offset == old(offset) && !ok
    {
      SkipWhitespace();
      ok := offset < |content| && content[offset] == '\0';
    }

    /** cJSON_ParseWithOpts behind the byte order mark: the value, and what may follow it. */
    method ParseContent(item: Item, requireNullTerminated: bool) returns (ok: bool, ghost t: Tree, ghost v: Json)
      requires Ready() && offset <= |content| && depth == 0
      requires item.child == null && item.valuestring == null && !item.isReference && !item.stringIsConst
      modifies this`offset, this`depth, this`lost, hooks, item`kind, item`valuestring, item`child, item`number
      ensures var p := SkipBlanks(content, old(offset));
              && (ok && !Misled(p, 0) ==>
                    match JsonReader.ParseValue(content, p, 0)
                    case None => false
                    case Some((w, e)) =>
                      v == w && if requireNullTerminated then
                                  offset == SkipBlanks(content, e) && content[offset] == '\0'
                                else offset == e)
              && (ok && Misled(p, 0) ==> NumberStart(content[p]) && !requireNullTerminated
                                         && offset == Astray(p, address) && v.Number?)
              && (!ok ==> || hooks.refusals > old(hooks.refusals)
                          || (Misled(p, 0) && (requireNullTerminated || !NumberStart(content[p])))
                          || match JsonReader.ParseValue(content, p, 0)
                             case None => true
                             case Some((_, e)) => requireNullTerminated && content[SkipBlanks(content, e)] != '\0')
      ensures ok ==> Built(item, t, v) && hooks.refusals == old(hooks.refusals)
      ensures Plain(t) && Distinct(t) && Shaped(t) && t.item == item && fresh(Below(t))
      ensures Reach(t) == {item} + Buffer(item.key) + Below(t) && hooks.live == old(hooks.live) + Below(t)
    {
      hide Reach, ReachAll, Owned, OwnedAll, Below, Distinct, DistinctAll, Plain, PlainAll, Shaped, Means,
           JsonReader.ParseValue, SkipBlanks, Built, NumberMet, Astray, NumberStart;
      SkipWhitespace();
      AtofLeaves(content, offset, strtod, address);
      ok, t, v := ParseValue(item);
      if !ok {
        t := Leaf(item);
        EmptyLeaf(item);
      } else {
        BuiltReach(item, t, v);
        assert allocated(Reach(t)) && this !in Reach(t);
        if requireNullTerminated {
          ok := AtTerminator();
          BuiltReach(item, t, v);
        }
      }
    }
  }

  // ---------------------------------------------------------------- documents

  /** skip_utf8_bom at the start of the buffer. */
  method SkipUtf8Bom(buffer: ParseBuffer)
    requires Terminated(buffer.content) && buffer.offset == 0
    modifies buffer`offset
    ensures buffer.offset == SkipMark(buffer.content)
  {
    if |buffer.content| > 4 && buffer.content[0] as int == 0xEF && buffer.content[1] as int == 0xBB
       && buffer.content[2] as int == 0xBF {
      buffer.offset := 3;
    }
  }

  /** Where parse_value starts in a document. */
  function Start(s: string): (p: nat)
    requires Terminated(s)
    ensures p < |s|
  {
    SkipBlanks(s, SkipMark(s))
  }

  /** The document makes the parser with atof lose its cursor. */
  predicate Astraying(s: string, strtod: bool)
    requires Terminated(s)
  {
    !strtod && NumberMet(s, Start(s), 0)
  }

  lemma {:induction false} FirstOf(t: Tree)
    ensures First([t]) == t.item
  {
  }

  /** cJSON_Delete on one item that is no part of a chain. */
  method DeleteItem(item: Item, hooks: Allocator, ghost t: Tree)
    requires item == t.item && Plain(t) && Distinct(t) && Shaped(t) && item.next == null && item.prev == null
    requires Reach(t) <= hooks.live
    modifies hooks
    ensures hooks.live == old(hooks.live) - Reach(t) && hooks.refusals == old(hooks.refusals)
  {
    hide *;
    NoAllocator(t, hooks);
    SingleRow(t);
    FirstOf(t);
    hooks.Delete(item, [t]);
  }

  /**
   cJSON_ParseWithOpts. With strtod, and with atof when no number is met, it returns an item exactly when the reader
   accepts the text and no allocation is refused; then the item stands for the tree read and owns all that was
   allocated, otherwise nothing stays allocated. With atof, of the documents in which a number is met it accepts just
   those that are a number, if nothing is asked of what follows it, and reports an end outside the text.
   */
  method ParseWithOpts(value: string, requireNullTerminated: bool, hooks: Allocator, strtod: bool, address: nat)
    returns (item: Item?, returnParseEnd: nat, ghost t: seq<Tree>, ghost v: Json)
    requires Compiled(Content(value), strtod, address)
    modifies hooks
    ensures item != null && !Astraying(Content(value), strtod) ==>
              ParseDocument(Content(value), requireNullTerminated) == Some((v, returnParseEnd))
    ensures item != null && Astraying(Content(value), strtod) ==>
              var p := Start(Content(value));
              && NumberStart(Content(value)[p]) && !requireNullTerminated && v.Number?
              && returnParseEnd == Astray(p, address) > |Content(value)|
    ensures item != null ==> |t| == 1 && Built(item, t[0], v) && Linked(t) && fresh(Reach(t[0]))
                             && hooks.live == old(hooks.live) + Reach(t[0]) && hooks.refusals == old(hooks.refusals)
    ensures item == null ==> hooks.live == old(hooks.live) && returnParseEnd < |Content(value)|
    ensures item == null ==>
              || ParseDocument(Content(value), requireNullTerminated).None? || hooks.refusals > old(hooks.refusals)
              || (Astraying(Content(value), strtod)
                  && (requireNullTerminated || !NumberStart(Content(value)[Start(Content(value))])))
  {
    hide Reach, ReachAll, Owned, OwnedAll, Below, Distinct, DistinctAll, Plain, PlainAll, Shaped, Means,
         JsonReader.ParseValue, SkipBlanks, SkipMark, Built, NumberMet, Astray, NumberStart;
    returnParseEnd, t, v := 0, [], Null;
    var buffer := new ParseBuffer(Content(value), hooks, strtod, address);
    item := hooks.NewItem();
    if item == null {
      return;
    }
    SkipUtf8Bom(buffer);
    AtofLeaves(buffer.content, Start(buffer.content), strtod, address);
    ghost var tree;
    var ok;
    ok, tree, v := buffer.ParseContent(item, requireNullTerminated);
    if ok {
      returnParseEnd, t := buffer.offset, [tree];
      SingleRow(tree);
    } else {
      returnParseEnd := if buffer.offset < |buffer.content| then buffer.offset else |buffer.content| - 1;
      DeleteItem(item, hooks, tree);
      item := null;
    }
  }

  /** A successful parse followed by cJSON_Delete, or a failed parse, leaves the heap as it was. */
  method ParseAndDelete(value: string, requireNullTerminated: bool, hooks: Allocator, strtod: bool, address: nat)
    returns (parsed: bool)
    requires Compiled(Content(value), strtod, address)
    modifies hooks
    ensures hooks.live == old(hooks.live)
    ensures !Astraying(Content(value), strtod) ==>
              && (parsed ==> ParseDocument(Content(value), requireNullTerminated).Some?)
              && (!parsed ==> ParseDocument(Content(value), requireNullTerminated).None?
                              || hooks.refusals > old(hooks.refusals))
  {
    hide Reach, ReachAll, Owned, OwnedAll, Below, Distinct, DistinctAll, Plain, PlainAll, Shaped, Means, Built,
         Astraying, ParseDocument;
    var item, end;
    ghost var t, v;
    item, end, t, v := ParseWithOpts(value, requireNullTerminated, hooks, strtod, address);
    parsed := item != null;
    if parsed {
      BuiltReach(item, t[0], v);
      assert t == [t[0]];
      DeleteItem(item, hooks, t[0]);
    }
  }

  lemma {:induction false} OneIsNumeral()
    ensures Numeral("1") && NumeralPrefix("1", 1) == 1
  {
    assert Digits("1", 1) == 0 && Digits("1", 0) == 1 && "1"[..1] == "1";
  }

  lemma {:induction false} ReadsDigit(s: string, p: nat)
    requires Terminated(s) && p + 1 < |s| && s[p] == '1' && !NumberByte(s[p + 1])
    ensures JsonReader.ParseNumber(s, p) == Some((Number("1"), p + 1))
  {
    RunUnfolds(s, p, NUMBER_BUFFER);
    RunUnfolds(s, p + 1, NUMBER_BUFFER - 1);
    OneIsNumeral();
    assert s[p..p + 1] == "1" && "1"[..1] == "1";
    NumberResult(s, p, 1);
  }

  /** What the reader makes of "1" and "[1]". */
  lemma {:induction false} ReadsOne()
    ensures ParseDocument(Content("1"), false) == Some((Number("1"), 1))
    ensures ParseDocument(Content("[1]"), false) == Some((Array([Number("1")]), 3))
    ensures Start(Content("1")) == 0 && Astraying(Content("1"), false)
    ensures Start(Content("[1]")) == 0 && Astraying(Content("[1]"), false)
  {
    var s, t := Content("1"), Content("[1]");
    assert s == ['1', '\0'] && t == ['[', '1', ']', '\0'];
    NoWordAt(s, 0);
    NoWordAt(t, 0);
    NoWordAt(t, 1);
    ReadsDigit(s, 0);
    ReadsDigit(t, 1);
    assert SkipBlanks(t, 1) == 1 && SkipBlanks(t, 2) == 2;
    assert ParseItems(t, 1, 1) == Some(([Number("1")], 3));
  }

  /** As compiled, with atof, "1" is parsed, but the end that is reported is an address. */
  method ParseOne(hooks: Allocator, address: nat) returns (item: Item?, end: nat)
    requires 3 <= address <= WORD - 64
    modifies hooks
    ensures item != null ==> end == WORD - address > |"1"|
    ensures item == null ==> hooks.refusals > old(hooks.refusals)
  {
    hide ParseDocument, Astraying;
    ReadsOne();
    AtofLeaves(Content("1"), 0, false, address);
    ghost var t, v;
    item, end, t, v := ParseWithOpts("1", false, hooks, false, address);
  }

  /** As compiled, with atof, "[1]" is not parsed. */
  method ParseArrayOfOne(hooks: Allocator, address: nat) returns (item: Item?)
    requires 4 <= address <= WORD - 64
    modifies hooks
    ensures item == null
  {
    hide ParseDocument, Astraying;
    ReadsOne();
    var end;
    ghost var t, v;
    item, end, t, v := ParseWithOpts("[1]", false, hooks, false, address);
  }
}
