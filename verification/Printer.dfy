/** The printer of cJSON: a growing or fixed buffer, and print_value writing the text of a tree into it. */
module Printer {
  import opened Prelude
  import opened StringCodec
  import opened Json
  import opened Heap

  const INT_MAX: nat := 0x7fff_ffff

  /** size_t has 32 bits, include/std_inc/stddef.h:17. */
  const SIZE_MAX: nat := 0xffff_ffff

  /** number_buffer of print_number, without its terminator. */
  const NUMBER_ROOM := 25

  // ---------------------------------------------------------------- what can be printed

  /** Spelling changes neither the number of children nor the keys, and goes child by child. */
  lemma {:induction false} SpelledKids(v: Json, spell: string -> string)
    ensures var w := Spelled(v, spell);
            && (v.Array? <==> w.Array?) && (v.Object? <==> w.Object?)
            && (v.Array? ==> |w.items| == |v.items|
                             && forall i :: 0 <= i < |v.items| ==> w.items[i] == Spelled(v.items[i], spell))
            && (v.Object? ==> |w.members| == |v.members|
                              && forall i :: 0 <= i < |v.members| ==>
                                   w.members[i] == Member(v.members[i].key, Spelled(v.members[i].value, spell)))
  {
  }

  /** What stands on the heap can be printed: C strings end at their terminators. */
  lemma {:induction false} MeaningPrints(t: Tree, v: Json, spell: string -> string)
    requires Means(t, v) && Spelling(spell)
    ensures Printable(Spelled(v, spell))
    decreases t
  {
    hide PrintedNumber;
    SpelledKids(v, spell);
    match v
    case Number(digits) =>
      assert spell(digits) == "null" || PrintedNumber(spell(digits));
    case Array(items) =>
      forall i | 0 <= i < |items| ensures Printable(Spelled(items[i], spell)) {
        MeaningPrints(t.kids[i], items[i], spell);
      }
    case Object(members) =>
      forall i | 0 <= i < |members| ensures Printable(Spelled(members[i].value, spell)) {
        MeaningPrints(t.kids[i], members[i].value, spell);
      }
    case _ =>
  }

  lemma {:induction false} NumberIsNulFree(v: Json)
    requires Printable(v)
    ensures v.Number? ==> NulFree(v.digits)
  {
    hide Numeral;
  }

  lemma {:induction false} HeadIsNulFree(key: string, format: bool, depth: nat, last: bool)
    requires NulFree(key)
    ensures NulFree(MemberHead(key, format, depth)) && NulFree(MemberTail(last, format))
  {
  }

  /** A printed tree contains no terminator. */
  lemma {:induction false} RenderIsNulFree(v: Json, format: bool, depth: nat)
    requires Printable(v)
    ensures NulFree(Render(v, format, depth))
    decreases v, 1
  {
    hide RenderItems, RenderMembers, Quote, PrintedNumber, Numeral;
    NumberIsNulFree(v);
    match v
    case Array(items) => ItemsAreNulFree(items, format, depth + 1);
    case Object(members) => MembersAreNulFree(members, format, depth + 1);
    case _ =>
  }

  lemma {:induction false} ItemsAreNulFree(items: seq<Json>, format: bool, depth: nat)
    requires forall i :: 0 <= i < |items| ==> Printable(items[i])
    ensures NulFree(RenderItems(items, format, depth))
    decreases items, 0
  {
    if items != [] {
      RenderIsNulFree(items[0], format, depth);
      ItemsAreNulFree(items[1..], format, depth);
    }
  }

  lemma {:induction false} MembersAreNulFree(members: seq<Member>, format: bool, depth: nat)
    requires forall i :: 0 <= i < |members| ==> NulFree(members[i].key) && Printable(members[i].value)
    ensures NulFree(RenderMembers(members, format, depth))
    decreases members, 0
  {
    hide Render, MemberHead, MemberTail;
    if members != [] {
      HeadIsNulFree(members[0].key, format, depth, |members| == 1);
      RenderIsNulFree(members[0].value, format, depth);
      MembersAreNulFree(members[1..], format, depth);
    }
  }

  // ---------------------------------------------------------------- texts piece by piece

  lemma {:induction false} EmptyQuote()
    ensures Quote("") == "\"\""
  {
  }

  /** The cases of print_value without children. */
  lemma {:induction false} RenderLeaf(v: Json, format: bool, depth: nat)
    ensures match v
            case Null => Render(v, format, depth) == "null"
            case False => Render(v, format, depth) == "false"
            case True => Render(v, format, depth) == "true"
            case Number(digits) => Render(v, format, depth) == digits
            case Raw(raw) => Render(v, format, depth) == raw
            case String(bytes) => Render(v, format, depth) == Quote(bytes)
            case _ => true
    ensures v.Number? && Printable(v) ==> |v.digits| <= NUMBER_ROOM
  {
  }

  lemma {:induction false} ObjectText(members: seq<Member>, format: bool, depth: nat)
    ensures Render(Object(members), format, depth) ==
            (if format then "{\n" else "{") + RenderMembers(members, format, depth + 1)
            + ((if format then Tabs(depth) else "") + "}")
    ensures |Tabs(depth)| == depth
  {
    var a := (if format then "{\n" else "{") + RenderMembers(members, format, depth + 1);
    var b := if format then Tabs(depth) else "";
    assert a + b + "}" == a + (b + "}");
  }

  lemma {:induction false} NextMemberText(members: seq<Member>, i: nat, format: bool, depth: nat)
    requires i < |members|
    ensures RenderMembers(members[i..], format, depth) ==
            MemberHead(members[i].key, format, depth) + Render(members[i].value, format, depth)
            + MemberTail(i + 1 == |members|, format) + RenderMembers(members[i + 1..], format, depth)
  {
    var rest := members[i..];
    assert rest[0] == members[i] && rest[1..] == members[i + 1..];
  }

  lemma {:induction false} NoMembersText(members: seq<Member>, format: bool, depth: nat)
    ensures RenderMembers(members[|members|..], format, depth) == ""
  {
  }

  /** What an Array renders to, and the items one by one. */
  lemma {:induction false} ArrayText(items: seq<Json>, format: bool, depth: nat)
    ensures Render(Array(items), format, depth) == "[" + RenderItems(items, format, depth + 1) + "]"
  {
  }

  lemma {:induction false} NextItemText(items: seq<Json>, i: nat, format: bool, depth: nat)
    requires i < |items|
    ensures RenderItems(items[i..], format, depth) ==
            Render(items[i], format, depth) + (if i + 1 == |items| then "" else ItemSeparator(format))
            + RenderItems(items[i + 1..], format, depth)
  {
    var rest := items[i..];
    assert rest[0] == items[i] && rest[1..] == items[i + 1..];
    if i + 1 == |items| {
      assert Render(items[i], format, depth) + "" + "" == Render(items[i], format, depth);
    }
  }

  lemma {:induction false} NoItemsText(items: seq<Json>, format: bool, depth: nat)
    ensures RenderItems(items[|items|..], format, depth) == ""
  {
  }

  /** The fields of an item that stands for a value. */
  lemma {:induction false} ValueFields(item: Item, t: Tree, v: Json)
    requires Stands(item, t, v)
    ensures match v
            case Null => item.kind == NullKind
            case False => item.kind == FalseKind
            case True => item.kind == TrueKind
            case Number(digits) => item.kind == NumberKind && item.number == digits
            case String(s) =>
              item.kind == StringKind && HoldsText(item.valuestring, s) && item.valuestring in Reach(t)
            case Raw(s) => item.kind == RawKind && HoldsText(item.valuestring, s) && item.valuestring in Reach(t)
            case Array(_) => item.kind == ArrayKind
            case Object(_) => item.kind == ObjectKind
  {
  }

  lemma {:induction false} KeyReached(t: Tree)
    ensures Buffer(t.key) <= Reach(t) && (t.key != null ==> t.key in Reach(t))
  {
  }

  // ---------------------------------------------------------------- writing bytes

  /** The bytes of a text, without a terminator. */
  method CopyBytes(output: array<char>, start: nat, text: string)
    requires start + |text| <= output.Length
    modifies output
    ensures output[..start + |text|] == old(output[..start]) + text
    ensures forall k :: start + |text| <= k < output.Length ==> output[k] == old(output[k])
  {
    for i := 0 to |text|
      invariant output[..start + i] == old(output[..start]) + text[..i]
      invariant forall k :: start + |text| <= k < output.Length ==> output[k] == old(output[k])
    {
      output[start + i] := text[i];
    }
    assert text[..|text|] == text;
  }

  /** strcpy and memcpy of a text with its terminator. */
  method CopyText(output: array<char>, start: nat, text: string)
    requires start + |text| < output.Length
    modifies output
    ensures output[..start + |text|] == old(output[..start]) + text && output[start + |text|] == '\0'
    ensures forall k :: start + |text| < k < output.Length ==> output[k] == old(output[k])
  {
    CopyBytes(output, start, text);
    ghost var written := output[..start + |text|];
    output[start + |text|] := '\0';
    assert output[..start + |text|] == written;
  }

  /** The first loop of print_string_ptr: how many bytes escaping adds. */
  method CountEscapes(input: string) returns (escapeCharacters: nat)
    ensures |input| + escapeCharacters == |Escape(input)|
  {
    escapeCharacters := 0;
    for i := 0 to |input|
      invariant i + escapeCharacters == |Escape(input[..i])|
    {
      EscapeNext(input, i);
      var c := input[i];
      if c == '\"' || c == '\\' || c as int == 8 || c as int == 12 || c == '\n' || c == '\r' || c == '\t' {
        escapeCharacters := escapeCharacters + 1;
      } else if c < ' ' {
        escapeCharacters := escapeCharacters + 5;
      }
    }
    assert input[..|input|] == input;
  }

  lemma {:induction false} EscapeNothing(s: string)
    ensures Escape(s[..0]) == []
  {
  }

  /** sprintf with u%04x for a control character. It writes a terminator too. */
  method WriteHex(output: array<char>, pointer: nat, code: nat)
    requires pointer + 5 < output.Length && code < 32
    modifies output
    ensures output[pointer..pointer + 5] == ['u', '0', '0', HexDigit(code / 16), HexDigit(code % 16)]
    ensures forall k :: 0 <= k < output.Length && !(pointer <= k <= pointer + 5) ==> output[k] == old(output[k])
  {
    output[pointer], output[pointer + 1], output[pointer + 2] := 'u', '0', '0';
    output[pointer + 3], output[pointer + 4] := HexDigit(code / 16), HexDigit(code % 16);
    output[pointer + 5] := '\0';
  }

  /** The loop body of the second loop: a byte as it is, or its escape. */
  method WriteEscape(output: array<char>, pointer: nat, c: char) returns (written: nat)
    requires pointer + |EscapeByte(c)| < output.Length
    modifies output
    ensures written == |EscapeByte(c)| && output[..pointer] == old(output[..pointer])
    ensures output[pointer..pointer + written] == EscapeByte(c)
    ensures forall k :: pointer + written < k < output.Length ==> output[k] == old(output[k])
  {
    hide HexDigit, NulFree;
    if c > 31 as char && c != '\"' && c != '\\' {
      output[pointer] := c;
      return 1;
    }
    output[pointer] := '\\';
    if c == '\\' {
      output[pointer + 1] := '\\';
    } else if c == '\"' {
      output[pointer + 1] := '\"';
    } else if c as int == 8 {
      output[pointer + 1] := 'b';
    } else if c as int == 12 {
      output[pointer + 1] := 'f';
    } else if c == '\n' {
      output[pointer + 1] := 'n';
    } else if c == '\r' {
      output[pointer + 1] := 'r';
    } else if c == '\t' {
      output[pointer + 1] := 't';
    } else {
      WriteHex(output, pointer + 1, c as int);
      assert output[pointer..pointer + 6] == ['\\'] + output[pointer + 1..pointer + 6];
      return 6;
    }
    assert output[pointer..pointer + 2] == ['\\', output[pointer + 1]];
    return 2;
  }

  /** The second loop of print_string_ptr. */
  method WriteEscaped(output: array<char>, start: nat, input: string)
    requires start + |Escape(input)| < output.Length
    modifies output
    ensures output[..start + |Escape(input)|] == old(output[..start]) + Escape(input)
    ensures forall k :: start + |Escape(input)| < k < output.Length ==> output[k] == old(output[k])
  {
    hide Escape, EscapeByte, NulFree;
    ghost var before := output[..start];
    var pointer := start;
    assert Escape(input[..0]) == [] by { EscapeNothing(input); }
    for i := 0 to |input|
      invariant pointer == start + |Escape(input[..i])| && pointer <= start + |Escape(input)|
      invariant output[..pointer] == before + Escape(input[..i])
      invariant forall k :: start + |Escape(input)| < k < output.Length ==> output[k] == old(output[k])
    {
      ghost var done := output[..pointer];
      EscapeNext(input, i);
      var written := WriteEscape(output, pointer, input[i]);
      assert output[..pointer + written] == done + EscapeByte(input[i]);
      pointer := pointer + written;
    }
    assert input[..|input|] == input;
  }

  /** The output of print_string_ptr: the quotes, and between them a plain copy or the escaped bytes. */
  method WriteQuoted(output: array<char>, start: nat, input: string, escapeCharacters: nat)
    requires |input| + escapeCharacters == |Escape(input)| && start + |Quote(input)| < output.Length
    modifies output
    ensures output[..start + |Quote(input)|] == old(output[..start]) + Quote(input)
    ensures output[start + |Quote(input)|] == '\0'
    ensures forall k :: start + |Quote(input)| < k < output.Length ==> output[k] == old(output[k])
  {
    hide EscapeByte, Escape;
    ghost var before := output[..start];
    output[start] := '\"';
    ghost var quoted := output[..start + 1];
    if escapeCharacters == 0 {
      NothingToEscape(input);
      CopyBytes(output, start + 1, input);
    } else {
      WriteEscaped(output, start + 1, input);
    }
    var end := start + 1 + |input| + escapeCharacters;
    ghost var escaped := output[..end];
    output[end] := '\"';
    output[end + 1] := '\0';
    assert quoted == before + QUOTE;
    assert output[..end + 1] == escaped + QUOTE;
    assert before + QUOTE + Escape(input) + QUOTE == before + Quote(input);
  }

  // ---------------------------------------------------------------- the buffer

  class PrintBuffer {
    var buffer: array?<char>
    var length: nat
    var offset: nat
    var depth: nat
    var wrapped: bool                 // a sum of sizes exceeded size_t; the run of the program ends there
    var overread: bool                // a byte was copied out of a block that is empty
    const noalloc: bool
    const format: bool
    const hooks: Allocator
    const canReallocate: bool         // hooks.reallocate is set
    const spell: string -> string     // what sprintf makes of a number
    ghost const tail: string          // in a block of the caller, what stands behind the length it gave
    ghost const start: nat            // the length of the first buffer

    constructor (buffer: array<char>, length: nat, noalloc: bool, format: bool, hooks: Allocator, canReallocate: bool,
                 spell: string -> string)
      requires length <= buffer.Length
      ensures this.buffer == buffer && this.length == length && offset == 0 && depth == 0 && !wrapped && !overread
      ensures this.noalloc == noalloc && this.format == format && this.hooks == hooks
      ensures this.canReallocate == canReallocate && this.spell == spell && tail == buffer[length..]
      ensures start == length
    {
      this.buffer, this.length, offset, depth, wrapped, overread := buffer, length, 0, 0, false, false;
      this.noalloc, this.format, this.hooks, this.canReallocate := noalloc, format, hooks, canReallocate;
      this.spell, tail, start := spell, buffer[length..], length;
    }

    /** The first buffer had no bytes, and buffers are copied by hand when they grow. */
    ghost predicate Empty() {
      start == 0 && !noalloc && !canReallocate
    }

    /** Behind the length that the caller gave, its block is as it was; only an empty block is read beyond its end. */
    ghost predicate Kept()
      reads this`buffer, this`length, this`overread, buffer
    {
      && (noalloc && buffer != null ==> length <= buffer.Length && buffer[length..] == tail)
      && (overread ==> Empty())
    }

    /** The buffer may be gone, or full. One that was empty has been read beyond its end as soon as it has grown. */
    ghost predicate Sound()
      reads this, hooks, buffer
    {
      && Kept()
      && (buffer != null ==>
            && length <= buffer.Length && length <= INT_MAX && (length == 0 ==> offset == 0 == start)
            && (!noalloc ==> buffer in hooks.live) && (overread <==> Empty() && length > 0))
    }

    /** There is a buffer, and the offset stays inside it. */
    ghost predicate Valid()
      reads this, hooks, buffer
    {
      Sound() && buffer != null && (length > 0 ==> offset < length)
    }

    /** The largest size the buffer can have. */
    function Capacity(): nat
      reads this
    {
      if noalloc then length else INT_MAX
    }

    /** What the buffer holds on the heap. */
    ghost function Held(): set<object>
      reads this
    {
      if noalloc || buffer == null then {} else {buffer}
    }

    /** Nothing but the buffer is allocated or freed, and nothing is written behind the end of the caller's block. */
    twostate predicate Conserved()
      reads this, hooks, buffer
    {
      && Held() <= hooks.live && hooks.live == old(hooks.live) - old(Held()) + Held() && Kept()
      && Capacity() == old(Capacity()) && hooks.refusals >= old(hooks.refusals)
      && (noalloc ==> buffer == old(buffer) && hooks.refusals == old(hooks.refusals))
      && (buffer == old(buffer) || buffer == null || fresh(buffer))
    }

    /** No memory was refused, and no sum of sizes wrapped. */
    twostate predicate Undisturbed()
      reads this, hooks
    {
      hooks.refusals == old(hooks.refusals) && wrapped == old(wrapped)
    }

    /**
     The demand exceeds the capacity, or memory was refused. A sum of sizes wraps only if the demand exceeds size_t.
     */
    twostate predicate Failing(demand: nat)
      reads this, hooks
    {
      && (demand > Capacity() || hooks.refusals > old(hooks.refusals))
      && (wrapped ==> old(wrapped) || demand > SIZE_MAX)
    }

    /** Success within `demand` bytes, or failure because of the demand or a refusal. */
    twostate predicate Outcome(ok: bool, demand: nat)
      reads this, hooks
    {
      if ok then demand <= Capacity() && Undisturbed() else Failing(demand)
    }

    /** `text` stands behind `before` in the buffer, followed by a terminator; the offset is somewhere in it. */
    ghost predicate Printed(before: string, text: string)
      reads this, hooks, buffer
    {
      && Valid() && |before| <= offset <= |before| + |text| < length
      && buffer[..|before| + |text|] == before + text && buffer[|before| + |text|] == '\0'
    }

    /** The buffer holds `text` up to the offset. */
    ghost predicate Filled(text: string)
      reads this, hooks, buffer
    {
      Valid() && offset == |text| && buffer[..offset] == text
    }

    /** The text of a value inside `depth` containers, with its numbers as they are spelled. */
    ghost function Text(v: Json, depth: nat): string {
      Render(Spelled(v, spell), format, depth)
    }

    /** The value can be printed: its numbers have spellings. */
    ghost predicate Fit(v: Json) {
      Printable(Spelled(v, spell))
    }

    /** The buffer moves to a new block by hand; of an empty one, a byte is read that it does not have. */
    method MoveByHand(newSize: nat) returns (newBuffer: array?<char>)
      requires Valid() && !noalloc && !canReallocate && offset + 1 <= newSize <= INT_MAX
      modifies this`overread, hooks
      ensures newBuffer == null ==> hooks.live == old(hooks.live) - {buffer} && overread == old(overread)
      ensures newBuffer == null ==> hooks.refusals > old(hooks.refusals)
      ensures newBuffer != null ==>
                && fresh(newBuffer) && newBuffer.Length == newSize && newBuffer[..offset] == buffer[..offset]
                && hooks.live == old(hooks.live) - {buffer} + {newBuffer} && hooks.refusals == old(hooks.refusals)
                && (overread <==> old(overread) || length == 0)
    {
      newBuffer := hooks.Allocate(newSize);
      if newBuffer != null {
        forall i | 0 <= i < offset + 1 && i < length {
          newBuffer[i] := buffer[i];
        }
        if offset + 1 > length {
          overread := true;
        }
      }
      hooks.Free(buffer);
    }

    /** The buffer is exchanged for a larger block, or is freed. */
    method Grow(newSize: nat) returns (ok: bool)
      requires Valid() && !noalloc && offset + 1 <= newSize <= INT_MAX
      modifies this`buffer, this`length, this`overread, hooks
      ensures Conserved() && (ok <==> hooks.refusals == old(hooks.refusals))
      ensures ok ==> Valid() && length == newSize && buffer[..offset] == old(buffer[..offset])
      ensures !ok ==> buffer == null && length == 0
    {
      var newBuffer: array?<char>;
      if canReallocate {
        newBuffer := hooks.Reallocate(buffer, newSize);
        if newBuffer == null {
          hooks.Free(buffer);
        }
      } else {
        newBuffer := MoveByHand(newSize);
      }
      ok := newBuffer != null;
      length, buffer := if ok then newSize else 0, newBuffer;
    }

    /**
     ensure: room for `needed` more bytes and a terminator, or failure. A need beyond size_t arrives reduced modulo
     2^32; the run of the program is followed no further then.
     */
    method Ensure(needed: nat) returns (ok: bool)
      requires Sound()
      modifies this`buffer, this`length, this`overread, this`wrapped, hooks
      ensures Conserved()
      ensures old(Valid()) ==> Outcome(ok, offset + needed + 1)
      ensures !old(Valid()) ==> !ok && buffer == old(buffer) && length == old(length) && hooks.live == old(hooks.live)
      ensures wrapped <==> old(wrapped) || needed > SIZE_MAX
      ensures ok ==> Valid() && offset + needed < length && buffer[..offset] == old(buffer[..offset])
      ensures ok ==> var total := needed + offset + 1;
                     length == if total <= old(length) then old(length)
                               else if total > 0x3FFF_FFFF then 0x7FFF_FFFF else 2 * total
    {
      ok := false;
      if needed > SIZE_MAX {
        wrapped := true;
        return;
      }
      if buffer == null {
        return;
      }
      if length > 0 && offset >= length {
        return;
      }
      if needed > INT_MAX {
        return;
      }
      assert needed + offset + 1 <= SIZE_MAX;
      var total := needed + offset + 1;
      if total <= length {
        return true;
      }
      if noalloc {
        return;
      }
      var newSize;
      if total > INT_MAX / 2 {
        if total <= INT_MAX {
          newSize := INT_MAX;
        } else {
          return;
        }
      } else {
        newSize := total * 2;
      }
      ok := Grow(newSize);
    }

    /** Bytes at the offset, where `ensure` has made room for them. */
    method Write(text: string, terminated: bool)
      requires Valid() && offset + |text| < length
      modifies buffer
      ensures Valid() && buffer[..offset + |text|] == old(buffer[..offset]) + text
      ensures terminated ==> buffer[offset + |text|] == '\0'
      ensures !terminated ==> buffer[offset + |text|] == old(buffer[offset + |text|])
    {
      if terminated {
        CopyText(buffer, offset, text);
      } else {
        CopyBytes(buffer, offset, text);
      }
      assert buffer[length..] == old(buffer[length..]);
    }

    lemma {:induction false} NoNulBefore(before: string, text: string)
      requires Printed(before, text) && NulFree(text)
      ensures forall k :: |before| <= k < |before| + |text| ==> buffer[k] != '\0'
    {
      forall k | |before| <= k < |before| + |text| ensures buffer[k] != '\0' {
        assert buffer[k] == buffer[..|before| + |text|][k] == text[k - |before|];
      }
    }

    /** update_offset: strlen from the offset. */
    method UpdateOffset(ghost before: string, ghost text: string)
      requires Printed(before, text) && NulFree(text)
      modifies this`offset
      ensures Filled(before + text)
    {
      ghost var end := |before| + |text|;
      NoNulBefore(before, text);
      var i := offset;
      while buffer[i] != '\0'
        invariant |before| <= i <= end
        decreases end - i
      {
        i := i + 1;
      }
      offset := i;
    }

    // ---------------------------------------------------------------- values without children

    /** The constant cases of print_value, and raw items: ensure, then copy with the terminator. */
    method PrintText(text: string) returns (ok: bool)
      requires Valid()
      modifies this`buffer, this`length, this`overread, this`wrapped, hooks, buffer
      ensures Conserved() && Outcome(ok, old(offset) + |text| + 2)
      ensures wrapped <==> old(wrapped) || |text| + 1 > SIZE_MAX
      ensures ok ==> Printed(old(buffer[..offset]), text) && offset == old(offset)
    {
      ok := Ensure(|text| + 1);
      if ok {
        Write(text, true);
      }
    }

    /** print_number: what sprintf made of the number must fit the number buffer. */
    method PrintNumber(number: string) returns (ok: bool)
      requires Valid()
      modifies this`buffer, this`length, this`overread, this`wrapped, this`offset, hooks, buffer
      ensures Conserved()
      ensures |spell(number)| <= 25 ==> Outcome(ok, old(offset) + |spell(number)| + 2)
      ensures |spell(number)| > 25 ==> !ok && hooks.live == old(hooks.live) && wrapped == old(wrapped)
      ensures ok ==> Printed(old(buffer[..offset]), spell(number)) && offset == old(offset) + |spell(number)|
    {
      var text := spell(number);
      if |text| > NUMBER_ROOM {
        return false;
      }
      ok := Ensure(|text| + 1);
      if ok {
        Write(text, true);
        offset := offset + |text|;
      }
    }

    method WriteString(text: string, escapeCharacters: nat)
      requires Valid() && offset + |Quote(text)| < length && |text| + escapeCharacters == |Escape(text)|
      modifies buffer
      ensures Printed(old(buffer[..offset]), Quote(text))
    {
      hide Escape, Quote;
      WriteQuoted(buffer, offset, text, escapeCharacters);
      assert buffer[length..] == old(buffer[length..]);
    }

    /**
     print_string_ptr: count, ensure, then copy as it is or escape byte by byte; a missing string prints as empty.
     */
    method PrintStringPtr(input: array?<char>, ghost text: string) returns (ok: bool)
      requires if input == null then text == "" else HoldsText(input, text) && input != buffer
      requires Valid()
      modifies this`buffer, this`length, this`overread, this`wrapped, hooks, buffer
      ensures Conserved() && Outcome(ok, old(offset) + |Quote(text)| + 2)
      ensures wrapped <==> old(wrapped) || |Quote(text)| + 1 > SIZE_MAX
      ensures ok ==> Printed(old(buffer[..offset]), Quote(text)) && offset == old(offset)
    {
      hide EscapeByte, Escape, CString, HoldsText;
      if input == null {
        EmptyQuote();
        ok := PrintText("\"\"");
        return;
      }
      HeldString(input, text);
      var bytes := CString(input[..]);
      var escapeCharacters := CountEscapes(bytes);
      var outputLength := |bytes| + escapeCharacters;
      ok := Ensure(outputLength + 3);
      if ok {
        WriteString(bytes, escapeCharacters);
      }
    }

    /** print_value for raw items. */
    method PrintRaw(input: array<char>, ghost text: string) returns (ok: bool)
      requires Valid() && HoldsText(input, text) && input != buffer
      modifies this`buffer, this`length, this`overread, this`wrapped, hooks, buffer
      ensures Conserved() && Outcome(ok, old(offset) + |text| + 2)
      ensures ok ==> Printed(old(buffer[..offset]), text) && offset == old(offset)
    {
      HeldString(input, text);
      ok := PrintText(CString(input[..]));
    }

    // ---------------------------------------------------------------- containers

    /** The items to be printed lie outside the buffer. */
    ghost predicate Apart(t: Tree)
      reads this`buffer
    {
      buffer != null ==> buffer !in Reach(t)
    }

    /** Neither the print buffer nor the allocator is part of a tree. */
    lemma {:induction false} Outside(t: Tree)
      ensures this !in Reach(t) && hooks !in Reach(t)
    {
      NoAllocator(t, hooks);
      forall i | 0 <= i < |t.kids| ensures this !in Reach(t.kids[i]) {
        Outside(t.kids[i]);
      }
    }

    /** Punctuation and indentation: ensure `needed` bytes, write the text at the offset and advance over it. */
    method Append(ghost before: string, text: string, needed: nat, terminated: bool) returns (ok: bool)
      requires Filled(before) && |text| <= needed <= |text| + 1
      modifies this`buffer, this`length, this`overread, this`wrapped, this`offset, hooks, buffer
      ensures Conserved() && Outcome(ok, |before| + needed + 1)
      ensures ok ==> Filled(before + text) && (terminated ==> offset < length && buffer[offset] == '\0')
    {
      ok := Ensure(needed);
      if ok {
        Write(text, terminated);
        offset := offset + |text|;
      }
    }

    /** The last line of a container: unlike the other pieces it is not advanced over. */
    method Close(closing: string, needed: nat, ghost before: string, ghost body: string) returns (ok: bool)
      requires Filled(before + body) && needed == |closing| + 1 && depth > 0
      modifies this`buffer, this`length, this`overread, this`wrapped, this`depth, hooks, buffer
      ensures Conserved() && Outcome(ok, |before + body| + |closing| + 2)
      ensures ok ==> Printed(before, body + closing) && depth == old(depth) - 1
    {
      ok := Ensure(needed);
      if ok {
        Write(closing, true);
        depth := depth - 1;
        assert before + body + closing == before + (body + closing);
      }
    }

    /** What printing an array asks of its items. */
    lemma {:induction false} ItemsFit(v: Json)
      requires v.Array? && Fit(v)
      ensures forall i :: 0 <= i < |v.items| ==> Fit(v.items[i])
    {
      SpelledKids(v, spell);
    }

    /** Key and colon of a member. */
    method PrintKey(name: array?<char>, ghost key: string, ghost before: string) returns (ok: bool)
      requires HoldsText(name, key) && buffer != name
      requires Filled(before)
      modifies this`buffer, this`length, this`overread, this`wrapped, this`offset, hooks, buffer
      ensures Conserved() && Outcome(ok, |before| + |Quote(key)| + (if format then 2 else 1) + 1)
      ensures ok ==> Filled(before + (Quote(key) + if format then ":\t" else ":"))
    {
      hide Quote, Kept;
      ok := PrintStringPtr(name, key);
      if ok {
        UpdateOffset(before, Quote(key));
        var colon := if format then ":\t" else ":";
        ok := Append(before + Quote(key), colon, |colon|, false);
        assert before + Quote(key) + colon == before + (Quote(key) + colon);
      }
    }

    /** The first half of the loop body of print_object: indentation, key and colon. */
    method PrintName(name: array?<char>, ghost key: string, ghost before: string) returns (ok: bool)
      requires HoldsText(name, key) && buffer != name
      requires Filled(before)
      modifies this`buffer, this`length, this`overread, this`wrapped, this`offset, hooks, buffer
      ensures var head := MemberHead(key, format, depth);
              Conserved() && Outcome(ok, |before| + |head| + 1) && (ok ==> Filled(before + head))
    {
      hide Quote, Tabs, Kept, NulFree;
      ghost var tabs, rest := if format then Tabs(depth) else "", Quote(key) + if format then ":\t" else ":";
      assert before + tabs + rest == before + MemberHead(key, format, depth) by {
        assert tabs + rest == MemberHead(key, format, depth);
      }
      if format {
        ok := Append(before, Tabs(depth), depth, false);
        if !ok {
          return;
        }
      }
      assert Filled(before + tabs) by {
        assert before + "" == before;
      }
      ok := PrintKey(name, key, before + tabs);
    }

    /** What the members of an object ask for, inside `depth` containers. */
    ghost predicate MembersFit(members: seq<Member>) {
      forall i :: 0 <= i < |members| ==> Fit(members[i].value)
    }

    /** What printing an object asks of its members. */
    lemma {:induction false} ObjectFits(v: Json)
      requires v.Object? && Fit(v)
      ensures MembersFit(v.members)
    {
      SpelledKids(v, spell);
    }

    /**
     print_value. It succeeds exactly when the text, its terminator and one more byte fit the capacity and no
     allocation is refused, and then the text of the tree stands behind what was there before.
     */
    method PrintValue(item: Item, ghost t: Tree, ghost v: Json) returns (ok: bool)
      requires Stands(item, t, v) && Apart(t)
      requires Valid() && Fit(v)
      modifies this`buffer, this`length, this`overread, this`wrapped, this`offset, this`depth, hooks, buffer
      ensures Conserved() && Outcome(ok, old(offset) + |Text(v, old(depth))| + 2)
      ensures ok ==> Printed(old(buffer[..offset]), Text(v, old(depth))) && depth == old(depth)
      decreases v, 2
    {
      hide Render, RenderItems, RenderMembers, Quote, NulFree, PrintedNumber, Reach, ReachAll, Shaped, HoldsText,
           Linked;
      RenderLeaf(Spelled(v, spell), format, depth);
      ValueFields(item, t, v);
      match item.kind {
        case NullKind => ok := PrintText("null");
        case FalseKind => ok := PrintText("false");
        case TrueKind => ok := PrintText("true");
        case NumberKind => ok := PrintNumber(item.number);
        case RawKind => ok := PrintRaw(item.valuestring, v.text);
        case StringKind => ok := PrintStringPtr(item.valuestring, v.bytes);
        case ArrayKind => ok := PrintArray(item, t, v);
        case ObjectKind => ok := PrintObject(item, t, v);
        case InvalidKind => ok := false;
      }
    }

    /** The loop body of print_array. */
    method PrintItem(item: Item, ghost t: Tree, ghost v: Json, ghost before: string) returns (ok: bool)
      requires Stands(item, t, v) && Apart(t)
      requires Filled(before) && Fit(v)
      modifies this`buffer, this`length, this`overread, this`wrapped, this`offset, this`depth, hooks, buffer
      ensures var text := Text(v, old(depth)) + (if item.next == null then "" else ItemSeparator(format));
              && Conserved() && Outcome(ok, |before| + |text| + 2)
              && (ok ==> Filled(before + text) && depth == old(depth))
      decreases v, 3
    {
      hide Render, NulFree, Printable, Reach, Stands, Spelled, Kept;
      ghost var text := Text(v, depth);
      RenderIsNulFree(Spelled(v, spell), format, depth);
      ok := PrintValue(item, t, v);
      if !ok {
        return;
      }
      UpdateOffset(before, text);
      if item.next != null {
        var separator := if format then ", " else ",";
        ok := Append(before + text, separator, |separator| + 1, true);
        assert before + text + separator == before + (text + separator);
      } else {
        assert text + "" == text;
      }
    }

    /** One turn of the loop of print_array, `done` having been printed of the items. */
    method NextItem(item: Item, ghost t: Tree, ghost v: Json, ghost i: nat, ghost before: string, ghost done: string)
      returns (ok: bool, ghost next: string)
      requires Stands(t.item, t, v) && v.Array? && i < |t.kids| && item == t.kids[i].item && Apart(t)
      requires Filled(before + done) && forall k :: 0 <= k < |v.items| ==> Fit(v.items[k])
      modifies this`buffer, this`length, this`overread, this`wrapped, this`offset, this`depth, hooks, buffer
      ensures var items := Spelled(v, spell).items;
              && Conserved() && Outcome(ok, |before + done| + |next| + 2)
              && i < |items| && RenderItems(items[i..], format, old(depth))
                                == next + RenderItems(items[i + 1..], format, old(depth))
      ensures ok ==> Filled(before + (done + next)) && depth == old(depth)
      ensures item.next == (if i + 1 < |t.kids| then t.kids[i + 1].item else null)
      decreases v.items, 4
    {
      hide Render, RenderItems, RenderMembers, Printable, Reach, ReachAll, Stands, Shaped, Means, KidValue,
           HoldsText, NulFree, Linked, Spelled, Kept;
      StandsMeans(t.item, t, v);
      ChildStands(t, v, i);
      SpelledKids(v, spell);
      Outside(t);
      assert allocated(Reach(t));
      NextItemText(Spelled(v, spell).items, i, format, depth);
      next := Text(v.items[i], depth) + (if i + 1 == |v.items| then "" else ItemSeparator(format));
      ok := PrintItem(item, t.kids[i], v.items[i], before + done);
      assert before + done + next == before + (done + next);
    }

    /** The loop of print_array. */
    method PrintItems(item: Item, ghost t: Tree, ghost v: Json, ghost before: string) returns (ok: bool)
      requires Stands(item, t, v) && v.Array? && Apart(t)
      requires Filled(before) && forall i :: 0 <= i < |v.items| ==> Fit(v.items[i])
      modifies this`buffer, this`length, this`overread, this`wrapped, this`offset, this`depth, hooks, buffer
      ensures var text := RenderItems(Spelled(v, spell).items, format, old(depth));
              && Conserved()
              && (ok ==> Filled(before + text) && depth == old(depth) && Undisturbed())
              && (!ok ==> Failing(|before| + |text| + 2))
      decreases v.items, 5
    {
      hide Render, RenderItems, RenderMembers, Printable, Reach, ReachAll, Stands, Shaped, Means, KidValue,
           HoldsText, NulFree, Linked, Spelled, Kept, Fit;
      ghost var items := Spelled(v, spell).items;
      ghost var text, done := RenderItems(items, format, depth), "";
      StandsMeans(item, t, v);
      SpelledKids(v, spell);
      Outside(t);
      assert allocated(Reach(t));
      var currentElement := item.child;
      ghost var i := 0;
      assert items[0..] == items && before + "" == before;
      while currentElement != null
        invariant i <= |items| && currentElement == (if i < |items| then t.kids[i].item else null)
        invariant Stands(item, t, v) && allocated(Reach(t)) && Apart(t)
        invariant Filled(before + done) && depth == old(depth)
        invariant Conserved() && Undisturbed()
        invariant text == done + RenderItems(items[i..], format, depth)
        decreases |items| - i
      {
        ghost var next;
        ok, next := NextItem(currentElement, t, v, i, before, done);
        ghost var rest := RenderItems(items[i + 1..], format, old(depth));
        assert done + (next + rest) == done + next + rest;
        if !ok {
          return;
        }
        done := done + next;
        currentElement := currentElement.next;
        i := i + 1;
      }
      NoItemsText(items, format, depth);
      assert done + "" == done;
      ok := true;
    }

    /** print_array behind the opening bracket. */
    method PrintElements(item: Item, ghost t: Tree, ghost v: Json, ghost before: string) returns (ok: bool)
      requires Stands(item, t, v) && v.Array? && Apart(t)
      requires Filled(before + "[") && Fit(v)
      modifies this`buffer, this`length, this`overread, this`wrapped, this`offset, this`depth, hooks, buffer
      ensures Conserved() && Outcome(ok, |before| + |Text(v, old(depth))| + 2)
      ensures ok ==> Printed(before, Text(v, old(depth))) && depth == old(depth)
      decreases v.items, 6
    {
      hide Render, RenderItems, RenderMembers, Reach, ReachAll, Stands, Shaped, Means, HoldsText, NulFree, Spelled,
           Kept, Printable;
      ghost var items := Spelled(v, spell).items;
      ghost var body := RenderItems(items, format, depth + 1);
      SpelledKids(v, spell);
      ArrayText(items, format, depth);
      Outside(t);
      assert allocated(Reach(t));
      ItemsFit(v);
      depth := depth + 1;
      ok := PrintItems(item, t, v, before + "[");
      if !ok {
        return;
      }
      assert before + "[" + body == before + ("[" + body);
      ok := Close("]", 2, before, "[" + body);
    }

    /** print_array: the opening bracket, and the rest behind it. */
    method PrintArray(item: Item, ghost t: Tree, ghost v: Json) returns (ok: bool)
      requires Stands(item, t, v) && v.Array? && Apart(t)
      requires Valid() && Fit(v)
      modifies this`buffer, this`length, this`overread, this`wrapped, this`offset, this`depth, hooks, buffer
      ensures Conserved() && Outcome(ok, old(offset) + |Text(v, old(depth))| + 2)
      ensures ok ==> Printed(old(buffer[..offset]), Text(v, old(depth))) && depth == old(depth)
      decreases v.items, 7
    {
      hide Render, RenderItems, RenderMembers, Reach, ReachAll, Stands, Shaped, Means, HoldsText, NulFree, Spelled,
           Kept, Printable, Fit;
      ghost var before := buffer[..offset];
      SpelledKids(v, spell);
      ArrayText(Spelled(v, spell).items, format, depth);
      Outside(t);
      assert allocated(Reach(t));
      ok := Append(before, "[", 1, false);
      if ok {
        ok := PrintElements(item, t, v, before);
      }
    }

    /** The second half of the loop body of print_object: the value, and what separates it from the next member. */
    method PrintMemberValue(item: Item, ghost t: Tree, ghost v: Json, ghost before: string) returns (ok: bool)
      requires Stands(item, t, v) && Apart(t)
      requires Filled(before) && Fit(v)
      modifies this`buffer, this`length, this`overread, this`wrapped, this`offset, this`depth, hooks, buffer
      ensures var text := Text(v, old(depth)) + MemberTail(item.next == null, format);
              && Conserved() && Outcome(ok, |before| + |text| + 2)
              && (ok ==> Filled(before + text) && depth == old(depth))
      decreases v, 3
    {
      hide Render, NulFree, Printable, Reach, ReachAll, Stands, Shaped, Means, HoldsText, Spelled, Kept;
      ghost var text := Text(v, depth);
      RenderIsNulFree(Spelled(v, spell), format, depth);
      ok := PrintValue(item, t, v);
      if !ok {
        return;
      }
      UpdateOffset(before, text);
      var separator := (if item.next != null then "," else "") + (if format then "\n" else "");
      ok := Append(before + text, separator, |separator| + 1, true);
      assert before + text + separator == before + (text + separator);
    }

    /** The loop body of print_object. */
    method PrintMember(item: Item, ghost t: Tree, ghost m: Member, ghost before: string) returns (ok: bool)
      requires Stands(item, t, m.value) && Apart(t) && item.key == t.key && HoldsText(t.key, m.key)
      requires Filled(before) && Fit(m.value)
      modifies this`buffer, this`length, this`overread, this`wrapped, this`offset, this`depth, hooks, buffer
      ensures var text := MemberHead(m.key, format, old(depth)) + Text(m.value, old(depth))
                          + MemberTail(item.next == null, format);
              && Conserved() && Outcome(ok, |before| + |text| + 2)
              && (ok ==> Filled(before + text) && depth == old(depth))
      decreases m, 3
    {
      hide Render, NulFree, Printable, MemberHead, MemberTail, Quote, Reach, ReachAll, Stands, Shaped, Means, HoldsText,
           Spelled, Kept, Fit, Text;
      ghost var head := MemberHead(m.key, format, depth);
      ghost var rest := Text(m.value, depth) + MemberTail(item.next == null, format);
      Outside(t);
      KeyReached(t);
      assert allocated(Reach(t));
      assert head + rest == head + Text(m.value, depth) + MemberTail(item.next == null, format);
      ok := PrintName(item.key, m.key, before);
      if ok {
        ok := PrintMemberValue(item, t, m.value, before + head);
        assert before + head + rest == before + (head + rest);
      }
    }

    /** One turn of the loop of print_object, `done` having been printed of the members. */
    method NextMember(item: Item, ghost t: Tree, ghost v: Json, ghost i: nat, ghost before: string, ghost done: string)
      returns (ok: bool, ghost next: string)
      requires Stands(t.item, t, v) && v.Object? && i < |t.kids| && item == t.kids[i].item && Apart(t)
      requires Filled(before + done) && MembersFit(v.members)
      modifies this`buffer, this`length, this`overread, this`wrapped, this`offset, this`depth, hooks, buffer
      ensures var members := Spelled(v, spell).members;
              && Conserved() && Outcome(ok, |before + done| + |next| + 2)
              && i < |members| && RenderMembers(members[i..], format, old(depth))
                                  == next + RenderMembers(members[i + 1..], format, old(depth))
      ensures ok ==> Filled(before + (done + next)) && depth == old(depth)
      ensures item.next == (if i + 1 < |t.kids| then t.kids[i + 1].item else null)
      decreases v.members, 4
    {
      hide Render, RenderMembers, MemberHead, MemberTail, Quote, NulFree, Printable, Reach, ReachAll,
           Stands, Shaped, Means, KidValue, HoldsText, RenderItems, Linked, Spelled, Kept, Fit;
      StandsMeans(t.item, t, v);
      ChildStands(t, v, i);
      SpelledKids(v, spell);
      Outside(t);
      assert allocated(Reach(t));
      NextMemberText(Spelled(v, spell).members, i, format, depth);
      next := MemberHead(v.members[i].key, format, depth) + Text(v.members[i].value, depth)
              + MemberTail(i + 1 == |v.members|, format);
      ok := PrintMember(item, t.kids[i], v.members[i], before + done);
      assert before + done + next == before + (done + next);
    }

    /** The loop of print_object. */
    method PrintMembers(item: Item, ghost t: Tree, ghost v: Json, ghost before: string) returns (ok: bool)
      requires Stands(item, t, v) && v.Object? && Apart(t)
      requires Filled(before) && MembersFit(v.members)
      modifies this`buffer, this`length, this`overread, this`wrapped, this`offset, this`depth, hooks, buffer
      ensures var text := RenderMembers(Spelled(v, spell).members, format, old(depth));
              && Conserved()
              && (ok ==> Filled(before + text) && depth == old(depth) && Undisturbed())
              && (!ok ==> Failing(|before| + |text| + 2))
      decreases v.members, 5
    {
      hide Render, RenderMembers, MemberHead, MemberTail, Quote, NulFree, Printable, Reach, ReachAll,
           Stands, Shaped, Means, KidValue, HoldsText, RenderItems, Linked, Spelled, Kept, MembersFit;
      ghost var members := Spelled(v, spell).members;
      ghost var text, done := RenderMembers(members, format, depth), "";
      StandsMeans(item, t, v);
      SpelledKids(v, spell);
      Outside(t);
      assert allocated(Reach(t));
      var currentItem := item.child;
      ghost var i := 0;
      assert members[0..] == members && before + "" == before;
      while currentItem != null
        invariant i <= |members| && currentItem == (if i < |members| then t.kids[i].item else null)
        invariant Stands(item, t, v) && allocated(Reach(t)) && Apart(t)
        invariant Filled(before + done) && depth == old(depth)
        invariant Conserved() && Undisturbed()
        invariant text == done + RenderMembers(members[i..], format, depth)
        decreases |members| - i
      {
        ghost var next;
        ok, next := NextMember(currentItem, t, v, i, before, done);
        ghost var rest := RenderMembers(members[i + 1..], format, old(depth));
        assert done + (next + rest) == done + next + rest;
        if !ok {
          return;
        }
        done := done + next;
        currentItem := currentItem.next;
        i := i + 1;
      }
      NoMembersText(members, format, depth);
      assert done + "" == done;
      ok := true;
    }

    /** print_object behind the opening brace. */
    method PrintRest(item: Item, ghost t: Tree, ghost v: Json, ghost before: string, ghost open: string)
      returns (ok: bool)
      requires Stands(item, t, v) && v.Object? && Apart(t) && open == (if format then "{\n" else "{")
      requires Filled(before + open) && Fit(v)
      modifies this`buffer, this`length, this`overread, this`wrapped, this`offset, this`depth, hooks, buffer
      ensures Conserved() && Outcome(ok, |before| + |Text(v, old(depth))| + 2)
      ensures ok ==> Printed(before, Text(v, old(depth))) && depth == old(depth)
      decreases v.members, 6
    {
      hide Render, RenderMembers, RenderItems, Quote, NulFree, Tabs, Reach, ReachAll, Stands, Shaped, Means, HoldsText,
           Printable, Spelled, Kept, Fit;
      ObjectFits(v);
      SpelledKids(v, spell);
      Outside(t);
      assert allocated(Reach(t));
      ghost var members := Spelled(v, spell).members;
      ghost var body := RenderMembers(members, format, depth + 1);
      var closing := (if format then Tabs(depth) else "") + "}";
      ObjectText(members, format, depth);
      assert |Text(v, depth)| == |open| + |body| + |closing|;
      depth := depth + 1;
      ok := PrintMembers(item, t, v, before + open);
      if !ok {
        return;
      }
      assert before + open + body == before + (open + body);
      ok := Close(closing, if format then depth + 1 else 2, before, open + body);
    }

    /** print_object: the opening brace, and the rest behind it. */
    method PrintObject(item: Item, ghost t: Tree, ghost v: Json) returns (ok: bool)
      requires Stands(item, t, v) && v.Object? && Apart(t)
      requires Valid() && Fit(v)
      modifies this`buffer, this`length, this`overread, this`wrapped, this`offset, this`depth, hooks, buffer
      ensures Conserved() && Outcome(ok, old(offset) + |Text(v, old(depth))| + 2)
      ensures ok ==> Printed(old(buffer[..offset]), Text(v, old(depth))) && depth == old(depth)
      decreases v.members, 7
    {
      hide Render, RenderMembers, RenderItems, Quote, NulFree, Tabs, Reach, ReachAll, Stands, Shaped, Means, HoldsText,
           Printable, Spelled, Kept, Fit;
      ghost var before := buffer[..offset];
      var open := if format then "{\n" else "{";
      SpelledKids(v, spell);
      ObjectText(Spelled(v, spell).members, format, depth);
      Outside(t);
      assert allocated(Reach(t));
      assert |Text(v, depth)| > |open|;
      ok := Append(before, open, |open| + 1, false);
      if ok {
        ok := PrintRest(item, t, v, before, open);
      }
    }
  }

  // ---------------------------------------------------------------- sizes that wrap

  /** A string of `n` bytes that print as \u0001. */
  function Ones(n: nat): (s: string)
    ensures |s| == n && NulFree(s)
  {
    seq(n, _ => 1 as char)
  }

  lemma {:induction false} OneEscaped()
    ensures |Escape(Ones(1))| == 6
  {
    assert Ones(1)[1..] == [];
  }

  lemma {:induction false} OnesEscaped(n: nat)
    ensures |Escape(Ones(n))| == 6 * n
  {
    if n == 0 {
      EscapeNothing(Ones(0));
      assert Ones(0) == Ones(0)[..0];
    } else {
      OnesEscaped(n - 1);
      assert Ones(n) == Ones(n - 1) + Ones(1);
      EscapeConcat(Ones(n - 1), Ones(1));
      OneEscaped();
    }
  }

  /** A string of 715827883 such bytes needs 2^32 + 5 bytes, so print_string_ptr asks `ensure` for 5. */
  lemma {:induction false} NeedWraps()
    ensures |Quote(Ones(715827883))| + 1 == SIZE_MAX + 1 + 5
  {
    hide Escape;
    OnesEscaped(715827883);
  }

  // ---------------------------------------------------------------- entry points

  lemma {:induction false} StandsPrints(item: Item, t: Tree, v: Json, spell: string -> string)
    requires Stands(item, t, v) && Spelling(spell)
    ensures Printable(Spelled(v, spell))
  {
    MeaningPrints(t, v, spell);
  }

  /** The text that is printed for a value. */
  function PrintedText(v: Json, spell: string -> string, format: bool): string {
    Render(Spelled(v, spell), format, 0)
  }

  /**
   cJSON_PrintPreallocated: success exactly when the text, its terminator and one spare byte fit the given length, and
   then the buffer holds the text. Nothing is allocated, and nothing behind that length is written. A sum of sizes can
   wrap only for a text that does not fit size_t.
   */
  method PrintPreallocated(item: Item, buf: array?<char>, len: int, fmt: bool, hooks: Allocator,
                           spell: string -> string, ghost t: Tree, ghost v: Json)
    returns (ok: bool, wrapped: bool)
    requires Stands(item, t, v) && Spelling(spell)
    requires len <= INT_MAX && (buf != null ==> buf !in Reach(t) && len <= buf.Length)
    modifies buf, hooks
    ensures ok <==> buf != null && len >= |PrintedText(v, spell, fmt)| + 2
    ensures ok ==> var text := PrintedText(v, spell, fmt); buf[..|text|] == text && buf[|text|] == '\0'
    ensures buf != null && len >= 0 ==> buf[len..] == old(buf[len..])
    ensures hooks.live == old(hooks.live)
    ensures wrapped ==> |PrintedText(v, spell, fmt)| + 2 > SIZE_MAX
  {
    hide Render, Printable, Reach, Spelled, Spelling, Stands;
    NoAllocator(t, hooks);
    StandsPrints(item, t, v, spell);
    assert allocated(Reach(t));
    if len < 0 || buf == null {
      return false, false;
    }
    var p := new PrintBuffer(buf, len, true, fmt, hooks, true, spell);
    ok := p.PrintValue(item, t, v);
    wrapped := p.wrapped;
    assert [] + PrintedText(v, spell, fmt) == PrintedText(v, spell, fmt);
  }

  /** What cJSON_PrintBuffered and print share: a new buffer, the value, and on failure the end of the buffer. */
  method PrintNew(item: Item, size: nat, format: bool, hooks: Allocator, canReallocate: bool, spell: string -> string,
                  ghost t: Tree, ghost v: Json)
    returns (p: PrintBuffer?, wrapped: bool, overread: bool)
    requires Stands(item, t, v) && Spelling(spell) && size <= INT_MAX
    modifies hooks
    ensures p == null ==> hooks.live == old(hooks.live)
    ensures p == null <==>
            |PrintedText(v, spell, format)| + 2 > INT_MAX || hooks.refusals > old(hooks.refusals)
    ensures p != null ==>
              && fresh(p) && p.hooks == hooks && p.canReallocate == canReallocate && !p.noalloc
              && p.Printed([], PrintedText(v, spell, format)) && fresh(p.buffer)
              && hooks.live == old(hooks.live) + {p.buffer} && hooks.refusals == old(hooks.refusals)
    ensures wrapped ==> p == null && |PrintedText(v, spell, format)| + 2 > SIZE_MAX
    ensures overread ==> size == 0 && !canReallocate
    ensures p != null ==> (overread <==> size == 0 && !canReallocate)
  {
    hide Render, Printable, Reach, Spelled, Spelling, Stands;
    NoAllocator(t, hooks);
    StandsPrints(item, t, v, spell);
    assert allocated(Reach(t));
    p, wrapped, overread := null, false, false;
    var buffer := hooks.Allocate(size);
    if buffer == null {
      return;
    }
    p := new PrintBuffer(buffer, size, false, format, hooks, canReallocate, spell);
    var ok := p.PrintValue(item, t, v);
    wrapped, overread := p.wrapped, p.overread;
    if !ok {
      if p.buffer != null {
        hooks.Free(p.buffer);
      }
      p := null;
    }
  }

  /**
   cJSON_PrintBuffered: the text in a buffer that starts with `prebuffer` bytes. Without realloc an initial size of 0
   makes the first copy read a byte that the block does not have: so on every success, and for no other arguments.
   */
  method PrintBuffered(item: Item, prebuffer: int, fmt: bool, hooks: Allocator, canReallocate: bool,
                       spell: string -> string, ghost t: Tree, ghost v: Json)
    returns (r: array?<char>, wrapped: bool, overread: bool)
    requires Stands(item, t, v) && Spelling(spell) && prebuffer <= INT_MAX
    modifies hooks
    ensures r != null ==> fresh(r) && hooks.live == old(hooks.live) + {r} && hooks.refusals == old(hooks.refusals)
    ensures r != null ==> var text := PrintedText(v, spell, fmt);
                          |text| < r.Length && r[..|text|] == text && r[|text|] == '\0'
    ensures r == null ==> hooks.live == old(hooks.live)
    ensures r == null <==>
            prebuffer < 0 || |PrintedText(v, spell, fmt)| + 2 > INT_MAX || hooks.refusals > old(hooks.refusals)
    ensures wrapped ==> r == null && |PrintedText(v, spell, fmt)| + 2 > SIZE_MAX
    ensures overread ==> prebuffer == 0 && !canReallocate
    ensures r != null ==> (overread <==> prebuffer == 0 && !canReallocate)
  {
    hide PrintedText, Reach, Spelled, Spelling, Stands;
    r, wrapped, overread := null, false, false;
    if prebuffer < 0 {
      return;
    }
    var p;
    p, wrapped, overread := PrintNew(item, prebuffer, fmt, hooks, canReallocate, spell, t, v);
    if p != null {
      assert [] + PrintedText(v, spell, fmt) == PrintedText(v, spell, fmt);
      r := p.buffer;
    }
  }

  /** The end of print: the buffer gives way to a block of the size of the text. */
  method Shrink(buffer: PrintBuffer, ghost text: string) returns (printed: array?<char>)
    requires buffer.Filled(text) && text + ['\0'] <= buffer.buffer[..] && !buffer.noalloc
    modifies buffer.hooks
    ensures var live := old(buffer.hooks.live) - {buffer.buffer};
            if printed != null then
              && fresh(printed) && printed[..] == text + ['\0'] && buffer.hooks.live == live + {printed}
              && buffer.hooks.refusals == old(buffer.hooks.refusals)
            else buffer.hooks.live == live && buffer.hooks.refusals > old(buffer.hooks.refusals)
  {
    var bytes := buffer.buffer;
    var size := buffer.offset + 1;
    assert bytes[..size] == text + ['\0'];
    if buffer.canReallocate {
      printed := buffer.hooks.Reallocate(bytes, size);
      if printed == null {
        buffer.hooks.Free(bytes);
        return;
      }
    } else {
      printed := buffer.hooks.Allocate(size);
      if printed == null {
        buffer.hooks.Free(bytes);
        return;
      }
      forall i | 0 <= i < size && i < buffer.length {
        printed[i] := bytes[i];
      }
      printed[buffer.offset] := '\0';
      buffer.hooks.Free(bytes);
    }
    assert printed[..] == bytes[..size];
  }

  /** print: cJSON_Print and cJSON_PrintUnformatted return a block that holds exactly the text and its terminator. */
  method Print(item: Item, format: bool, hooks: Allocator, canReallocate: bool, spell: string -> string,
               ghost t: Tree, ghost v: Json)
    returns (printed: array?<char>, wrapped: bool)
    requires Stands(item, t, v) && Spelling(spell)
    modifies hooks
    ensures printed != null ==>
              fresh(printed) && hooks.live == old(hooks.live) + {printed} && hooks.refusals == old(hooks.refusals)
    ensures printed != null ==> printed[..] == PrintedText(v, spell, format) + ['\0']
    ensures printed == null ==> hooks.live == old(hooks.live)
    ensures printed == null <==>
            |PrintedText(v, spell, format)| + 2 > INT_MAX || hooks.refusals > old(hooks.refusals)
    ensures wrapped ==> |PrintedText(v, spell, format)| + 2 > SIZE_MAX
  {
    hide Render, Reach, Spelled, Spelling, Stands;
    ghost var text := PrintedText(v, spell, format);
    StandsPrints(item, t, v, spell);
    printed := null;
    var buffer, overread;
    buffer, wrapped, overread := PrintNew(item, 256, format, hooks, canReallocate, spell, t, v);
    if buffer == null {
      return;
    }
    RenderIsNulFree(Spelled(v, spell), format, 0);
    buffer.UpdateOffset([], text);
    assert [] + text == text && buffer.buffer[..|text| + 1] == text + ['\0'];
    printed := Shrink(buffer, text);
  }
}
