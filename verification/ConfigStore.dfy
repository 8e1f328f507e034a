/** Loading the configuration through a fixed line buffer, line by line, and saving it. */
module ConfigStore {
  import opened Prelude
  import opened TextUtils
  import opened ConfigValidation

  const MAX_LINE_LENGTH := 256

  // ---------------------------------------------------------------- one line

  /**
   What a line does to the configuration: the text before the first '=' names the field, the text behind it is its
   value.
   */
  function ApplyLine(c: Config, line: string, floats: Floats): Config {
    var k := IndexOf(line, '=');
    if k == |line| then c
    else
      var entry := Lookup(Trim(line[..k]));
      if entry.None? then c
      else
        var updated := Accepted(c, entry.value, Trim(line[k + 1..]), floats);
        if updated.None? then c else updated.value
  }

  /** The line names a field and its validator accepts the value. */
  predicate TakesLine(c: Config, line: string, floats: Floats) {
    var k := IndexOf(line, '=');
    && k < |line|
    && var entry := Lookup(Trim(line[..k]));
       entry.Some? && Accepted(c, entry.value, Trim(line[k + 1..]), floats).Some?
  }

  function ApplyLines(c: Config, lines: seq<string>, floats: Floats): Config
    decreases |lines|
  {
    if lines == [] then c else ApplyLines(ApplyLine(c, lines[0], floats), lines[1..], floats)
  }

  lemma {:induction false} AppliedInTurn(c: Config, lines: seq<string>, more: seq<string>, floats: Floats)
    ensures ApplyLines(c, lines + more, floats) == ApplyLines(ApplyLines(c, lines, floats), more, floats)
    decreases |lines|
  {
    hide ApplyLine;
    if lines == [] {
      assert lines + more == more;
    } else {
      AppliedInTurn(ApplyLine(c, lines[0], floats), lines[1..], more, floats);
      assert (lines + more)[1..] == lines[1..] + more;
    }
  }

  lemma {:induction false} AppliedLast(c: Config, lines: seq<string>, line: string, floats: Floats)
    ensures ApplyLines(c, lines + [line], floats) == ApplyLine(ApplyLines(c, lines, floats), line, floats)
  {
    hide ApplyLine;
    AppliedInTurn(c, lines, [line], floats);
  }

  /** A text in the buffer, byte by byte. */
  lemma {:induction false} SplitText(a: array<char>, start: nat, text: string, k: nat)
    requires TextAt(a, start, text) && k < |text|
    ensures start + |text| < a.Length && a[start + |text|] == '\0' && NulFree(text)
    ensures forall i :: 0 <= i < |text| ==> a[start + i] == text[i]
  {
    TextBytes(a, start, text);
  }

  lemma {:induction false} TextBefore(a: array<char>, start: nat, text: string, k: nat)
    requires start + |text| < a.Length && k < |text| && a[start + k] == '\0' && NulFree(text)
    requires forall i :: 0 <= i < k ==> a[start + i] == text[i]
    ensures TextAt(a, start, text[..k])
  {
    TextHolds(a, start, text[..k]);
  }

  lemma {:induction false} TextBehind(a: array<char>, start: nat, text: string, k: nat)
    requires start + |text| < a.Length && k < |text| && a[start + |text|] == '\0' && NulFree(text)
    requires forall i :: k < i < |text| ==> a[start + i] == text[i]
    ensures TextAt(a, start + k + 1, text[k + 1..])
  {
    var rest := text[k + 1..];
    forall i | 0 <= i < |rest| ensures a[start + k + 1 + i] == rest[i] {
      assert a[start + (k + 1 + i)] == text[k + 1 + i];
    }
    TextHolds(a, start + k + 1, rest);
  }

  /** What was in the buffer held the C string at `start`. */
  ghost predicate TextIn(before: seq<char>, start: nat, text: string) {
    start + |text| < |before| && before[start + |text|] == '\0' && NulFree(text)
    && before[start..start + |text|] == text
  }

  /** Writing within one stretch leaves a text in another stretch alone. */
  lemma {:induction false} Untouched(a: array<char>, before: seq<char>, from: nat, to: nat, start: nat, text: string)
    requires TextIn(before, start, text) && OnlyWithin(a, before, from, to) && (start + |text| < from || to < start)
    ensures TextAt(a, start, text)
  {
    forall i | 0 <= i < |text| ensures a[start + i] == text[i] {
      assert before[start..start + |text|][i] == text[i];
    }
    TextHolds(a, start, text);
  }

  lemma {:induction false} Snapshot(a: array<char>, start: nat, text: string)
    requires TextAt(a, start, text)
    ensures TextIn(a[..], start, text)
  {
    assert a[..][start..start + |text|] == a[start..start + |text|];
  }

  /** A C string in the buffer. */
  lemma {:induction false} HeldText(a: array<char>, start: nat, text: string)
    requires TextAt(a, start, text)
    ensures start <= a.Length && CString(a[start..]) == text && NulFree(text)
  {
    TextByte(a, start, text, |text|);
    assert a[start..][..|text|] == a[start..start + |text|];
    CStringIs(a[start..], text);
  }

  /** The first part of parse_line: a terminator replaces the first '='. */
  method CutAtEquals(buffer: array<char>, start: nat, ghost line: string) returns (value: Option<nat>)
    requires TextAt(buffer, start, line)
    modifies buffer
    ensures OnlyWithin(buffer, old(buffer[..]), start, start + |line|) && start + |line| < buffer.Length
    ensures var k := IndexOf(line, '=');
            if k == |line| then value == None
            else (value == Some(start + k + 1) && TextAt(buffer, start, line[..k])
                  && TextAt(buffer, start + k + 1, line[k + 1..]))
  {
    hide TextAt, NulFree;
    TextByte(buffer, start, line, 0);
    value := StringFind(buffer, start, '=', line);
    if value.Some? {
      ghost var k := IndexOf(line, '=');
      SplitText(buffer, start, line, k);
      buffer[value.value] := '\0';
      TextBefore(buffer, start, line, k);
      TextBehind(buffer, start, line, k);
      value := Some(value.value + 1);
    }
  }

  /** parse_line: works in the buffer and writes only inside the line and on its terminator. */
  method ParseLine(store: Store, buffer: array<char>, start: nat, floats: Floats, ghost line: string) returns (ok: bool)
    requires TextAt(buffer, start, line)
    modifies store, buffer
    ensures ok <==> TakesLine(old(store.Contents()), line, floats)
    ensures store.Contents() == ApplyLine(old(store.Contents()), line, floats) && store.log == old(store.log) + [line]
    ensures OnlyWithin(buffer, old(buffer[..]), start, start + |line|)
  {
    hide TextAt, Trim, Accepted, NulFree, Lookup;
    store.log := store.log + [line];
    var value := CutAtEquals(buffer, start, line);
    if value.None? {
      return false;
    }
    ghost var k := IndexOf(line, '=');
    ghost var name, rest := line[..k], line[k + 1..];
    ghost var cut := buffer[..];
    Snapshot(buffer, value.value, rest);
    var key := TrimWhitespace(buffer, start, name);
    Untouched(buffer, cut, start, start + k, value.value, rest);
    ghost var trimmed := buffer[..];
    Snapshot(buffer, key, Trim(name));
    var text := TrimWhitespace(buffer, value.value, rest);
    Untouched(buffer, trimmed, value.value, value.value + |rest|, key, Trim(name));
    HeldText(buffer, key, Trim(name));
    HeldText(buffer, text, Trim(rest));
    var entry := GetConfigMap(CString(buffer[key..]));
    if entry.None? {
      return false;
    }
    ok := store.Validate(entry.value, CString(buffer[text..]), floats);
  }

  // ---------------------------------------------------------------- the lines that are loaded

  /** Lines that fill the buffer without a newline are dropped. */
  function Kept(lines: seq<string>): seq<string> {
    if lines == [] then []
    else if |lines[0]| < MAX_LINE_LENGTH - 1 then [lines[0]] + Kept(lines[1..])
    else Kept(lines[1..])
  }

  lemma {:induction false} KeptUnfolds(lines: seq<string>, more: seq<string>)
    requires lines != []
    ensures Kept(lines) == (if |lines[0]| < 255 then [lines[0]] else []) + Kept(lines[1..])
    ensures Kept(lines + more) == (if |lines[0]| < 255 then [lines[0]] else []) + Kept(lines[1..] + more)
  {
    assert (lines + more)[1..] == lines[1..] + more;
  }

  /**
   The lines still to be handed over, with `rest` unread or in the buffer, perhaps in the middle of an overlong line.
   */
  function ToCome(rest: string, skip: bool): seq<string> {
    Kept(Lines(if skip then AfterNewline(rest) else rest))
  }

  lemma {:induction false} NoLine()
    ensures IndexOf("", '\n') == 0 && AfterNewline("") == "" && Lines("") == [] && Kept([]) == []
            && ToCome("", true) == [] == ToCome("", false)
  {
  }

  /** Kept is a filter: exactly the short lines, in their order. */
  lemma {:induction false} KeptMeans(lines: seq<string>, more: seq<string>)
    ensures Kept(lines + more) == Kept(lines) + Kept(more)
    ensures forall line :: line in Kept(lines) <==> line in lines && |line| < 255
  {
    hide *;
    if lines == [] {
      assert lines + more == more;
      NoLine();
    } else {
      KeptMeans(lines[1..], more);
      KeptUnfolds(lines, more);
      assert forall line :: line in lines <==> line == lines[0] || line in lines[1..];
    }
  }

  lemma {:induction false} AllKept(lines: seq<string>)
    requires forall i :: 0 <= i < |lines| ==> |lines[i]| < 255
    ensures Kept(lines) == lines
  {
    if lines != [] {
      AllKept(lines[1..]);
    }
  }

  /** A full buffer without a newline: its line is dropped. */
  lemma {:induction false} Overlong(chunk: string, more: string, skip: bool)
    requires |chunk| >= 255 && '\n' !in chunk
    ensures ToCome(chunk + more, skip) == ToCome(more, true)
  {
    hide IndexOf, AfterNewline;
    NewlineBeyond(chunk, more);
    assert Lines(chunk + more)[1..] == Lines(AfterNewline(chunk + more));
  }

  /** A line and its newline, or the last line without one. */
  lemma {:induction false} OneLine(line: string, more: string, skip: bool)
    requires '\n' !in line && |line| < 255
    ensures ToCome(line + "\n" + more, skip) == (if skip then [] else [line]) + ToCome(more, false)
    ensures line != "" ==> ToCome(line, skip) == if skip then [] else [line]
  {
    hide IndexOf, AfterNewline;
    var rest := line + "\n" + more;
    NewlineAt(line, more);
    assert rest[..|line|] == line;
    assert Lines(rest) == [line] + Lines(more) && Lines(rest)[1..] == Lines(more);
    NewlineBeyond(line, "");
    NoLine();
    assert line + "" == line && line[..|line|] == line;
    if line != "" {
      assert Lines(line) == [line] + Lines("") && Lines(line)[1..] == [];
    }
  }

  // ---------------------------------------------------------------- the file

  /** An open file. A read may fail, and may return fewer bytes than asked for. */
  class File {
    const data: string
    var position: nat

    constructor (data: string)
      ensures this.data == data && position == 0
    {
      this.data, position := data, 0;
    }

    /** What was not read yet. */
    function Rest(): string
      requires position <= |data|
      reads this
    {
      data[position..]
    }

    /** API_FS_Read: while data remains, at least one byte is read; nothing is written outside the given stretch. */
    method Read(buffer: array<char>, at: int, length: int) returns (k: int)
      requires position <= |data|
      requires position < |data| ==> 0 <= at && 0 < length && at + length <= buffer.Length
      modifies this`position, buffer
      ensures old(position) <= position <= |data|
      ensures k < 0 ==> position == old(position)
      ensures k >= 0 ==> position == old(position) + k && (old(position) < |data| ==> 0 < k <= length)
      ensures 0 < k ==> buffer[at..at + k] == data[old(position)..position]
      ensures forall i :: 0 <= i < buffer.Length && !(0 < k && at <= i < at + k) ==> buffer[i] == old(buffer[i])
    {
      var failed: bool := *;
      if failed {
        return -1;
      }
      var most := if length < |data| - position then length else |data| - position;
      if position == |data| {
        return 0;
      }
      k := 1;
      while k < most
        invariant 1 <= k <= most
      {
        var more: bool := *;
        if !more {
          break;
        }
        k := k + 1;
      }
      forall i | 0 <= i < k {
        buffer[at + i] := data[position + i];
      }
      position := position + k;
    }
  }

  // ---------------------------------------------------------------- the chunked reader

  /** Where the first newline of a text in the buffer is. */
  function NewlineIn(start: nat, text: string): Option<nat> {
    if IndexOf(text, '\n') < |text| then Some(start + IndexOf(text, '\n')) else None
  }

  /**
   Of all lines to hand over, `done` are handed over; the others are in `pending`, the buffer, and `unread`, the file.
   */
  ghost predicate Due(all: seq<string>, done: seq<string>, pending: string, unread: string, skip: bool) {
    all == done + ToCome(pending + unread, skip)
  }

  lemma {:induction false} DueAtStart(data: string)
    ensures Due(Kept(Lines(data)), [], "", data[0..], false)
  {
    assert "" + data[0..] == data;
  }

  lemma {:induction false} DueAtEnd(all: seq<string>, done: seq<string>, skip: bool)
    requires Due(all, done, "", "", skip)
    ensures all == done
  {
    NoLine();
    assert "" + "" == "";
  }

  lemma {:induction false} DuePrefix(all: seq<string>, done: seq<string>, pending: string, unread: string, skip: bool)
    requires Due(all, done, pending, unread, skip)
    ensures done <= all
  {
  }

  lemma {:induction false} DueOverlong(all: seq<string>, done: seq<string>, pending: string, unread: string, skip: bool)
    requires Due(all, done, pending, unread, skip) && |pending| >= 255 && NewlineIn(0, pending) == None
    ensures Due(all, done, "", unread, true)
  {
    hide ToCome, IndexOf;
    SplitAtNewline(pending);
    Overlong(pending, unread, skip);
    assert "" + unread == unread;
  }

  /** What is left in the buffer behind a line that ends at `at`. */
  ghost function Behind(text: string, start: nat, at: nat): string {
    if start <= at < start + |text| then text[at - start + 1..] else ""
  }

  ghost function Front(text: string, start: nat, at: nat): string {
    if start <= at <= start + |text| then text[..at - start] else ""
  }

  /** The lines handed over when the one that ends at `at` was seen. */
  ghost function Handed(done: seq<string>, skip: bool, text: string, start: nat, at: nat): seq<string> {
    if skip then done else done + [Front(text, start, at)]
  }

  /**
   Where the first line of a text in the buffer ends: at its newline, or, for the last line of the file, behind the
   text.
   */
  ghost predicate EndsAt(start: nat, text: string, unread: string, at: nat) {
    && text != "" && |text| <= 255
    && (NewlineIn(start, text) == Some(at)
        || (NewlineIn(start, text) == None && at == start + |text| && unread == "" && |text| < 255))
  }

  lemma {:induction false} DueLine(all: seq<string>, done: seq<string>, start: nat, text: string, unread: string,
                                   skip: bool, at: nat)
    requires Due(all, done, text, unread, skip) && EndsAt(start, text, unread, at)
    ensures start <= at <= start + |text|
    ensures Due(all, Handed(done, skip, text, start, at), Behind(text, start, at), unread, false)
  {
    hide IndexOf, AfterNewline, ToCome;
    SplitAtNewline(text);
    var line, left := Front(text, start, at), Behind(text, start, at);
    if at < start + |text| {
      CutAt(text, at - start);
      assert text + unread == line + "\n" + (left + unread);
      OneLine(line, left + unread, skip);
    } else {
      assert line == text && text + unread == text && "" + unread == "";
      OneLine(line, "", skip);
      NoLine();
    }
    assert done + [line] + ToCome(left + unread, false) == done + ([line] + ToCome(left + unread, false));
  }

  /** The line up to its end, with a terminator written there. */
  lemma {:induction false} Terminate(a: array<char>, start: nat, text: string, k: nat)
    requires start + k < a.Length && k <= |text| && a[start + k] == '\0' && NulFree(text)
    requires forall i :: 0 <= i < k ==> a[start + i] == text[i]
    ensures TextAt(a, start, text[..k])
  {
    TextHolds(a, start, text[..k]);
  }

  lemma {:induction false} NoNuls(a: array<char>, start: nat, text: string)
    requires TextAt(a, start, text)
    ensures NulFree(text)
  {
  }

  /** A terminator replaces the newline of the line, or stands behind the last line already. */
  method CutLine(buffer: array<char>, start: nat, lineEnd: nat, ghost text: string)
    requires TextAt(buffer, start, text) && start <= lineEnd <= start + |text|
    modifies buffer
    ensures TextAt(buffer, start, Front(text, start, lineEnd))
    ensures lineEnd < start + |text| ==> TextAt(buffer, lineEnd + 1, Behind(text, start, lineEnd))
  {
    hide TextAt, NulFree;
    ghost var k := lineEnd - start;
    TextBytes(buffer, start, text);
    TextByte(buffer, start, text, |text|);
    NoNuls(buffer, start, text);
    if k < |text| {
      TextByte(buffer, start, text, k + 1);
      Snapshot(buffer, lineEnd + 1, text[k + 1..]);
    }
    ghost var before := buffer[..];
    buffer[lineEnd] := '\0';
    Terminate(buffer, start, text, k);
    if k < |text| {
      Untouched(buffer, before, lineEnd, lineEnd, lineEnd + 1, text[k + 1..]);
    }
  }

  /** One line is handed to parse_line, or skipped; what is behind it stays as it is. */
  method HandOver(store: Store, buffer: array<char>, start: nat, lineEnd: nat, skip: bool, floats: Floats,
                  ghost text: string)
    requires TextAt(buffer, start, text) && start <= lineEnd <= start + |text|
    modifies store, buffer
    ensures store.Contents() == if skip then old(store.Contents())
                                else ApplyLine(old(store.Contents()), Front(text, start, lineEnd), floats)
    ensures store.log == old(store.log) + (if skip then [] else [Front(text, start, lineEnd)])
    ensures lineEnd < start + |text| ==> TextAt(buffer, lineEnd + 1, Behind(text, start, lineEnd))
  {
    hide TextAt, ApplyLine, NulFree;
    ghost var more := lineEnd < start + |text|;
    if !skip {
      CutLine(buffer, start, lineEnd, text);
      ghost var parsing := buffer[..];
      if more {
        Snapshot(buffer, lineEnd + 1, Behind(text, start, lineEnd));
      }
      var _ := ParseLine(store, buffer, start, floats, Front(text, start, lineEnd));
      if more {
        Untouched(buffer, parsing, start, lineEnd, lineEnd + 1, Behind(text, start, lineEnd));
      }
    } else if more {
      TextByte(buffer, start, text, lineEnd - start + 1);
    }
  }

  /** A store before loading. */
  datatype Origin = Origin(config: Config, log: seq<string>)

  /** Since `from`, parse_line was given these lines, and the configuration is what they make of it. */
  ghost predicate Applied(store: Store, from: Origin, done: seq<string>, floats: Floats)
    reads store
  {
    store.Contents() == ApplyLines(from.config, done, floats) && store.log == from.log + done
  }

  lemma {:induction false} AppliedMore(from: Origin, done: seq<string>, before: Origin, skip: bool, text: string,
                                       start: nat, at: nat, floats: Floats)
    requires before == Origin(ApplyLines(from.config, done, floats), from.log + done)
    ensures ApplyLines(from.config, Handed(done, skip, text, start, at), floats)
            == if skip then before.config else ApplyLine(before.config, Front(text, start, at), floats)
    ensures from.log + Handed(done, skip, text, start, at)
            == before.log + (if skip then [] else [Front(text, start, at)])
  {
    hide ApplyLines, ApplyLine, Front;
    AppliedLast(from.config, done, Front(text, start, at), floats);
  }

  /** The loop body: the line that ends at `lineEnd` is handed over or skipped. */
  method NextLine(store: Store, buffer: array<char>, start: nat, lineEnd: nat, skip: bool, floats: Floats,
                  ghost text: string, ghost unread: string, ghost all: seq<string>, ghost from: Origin,
                  ghost done: seq<string>)
    requires TextAt(buffer, start, text) && EndsAt(start, text, unread, lineEnd)
    requires Due(all, done, text, unread, skip) && Applied(store, from, done, floats)
    modifies store, buffer
    ensures start <= lineEnd <= start + |text|
    ensures Due(all, Handed(done, skip, text, start, lineEnd), Behind(text, start, lineEnd), unread, false)
    ensures Applied(store, from, Handed(done, skip, text, start, lineEnd), floats)
    ensures lineEnd < start + |text| ==> TextAt(buffer, lineEnd + 1, Behind(text, start, lineEnd))
  {
    hide TextAt, EndsAt, Due, Handed, Behind, Front, ApplyLines, ApplyLine;
    DueLine(all, done, start, text, unread, skip, lineEnd);
    AppliedMore(from, done, Origin(store.Contents(), store.log), skip, text, start, lineEnd, floats);
    HandOver(store, buffer, start, lineEnd, skip, floats, text);
  }

  lemma {:induction false} EndFound(start: nat, text: string, unread: string, found: Option<nat>, at: nat)
    requires text != "" && |text| <= 255 && found == NewlineIn(start, text)
    requires found == Some(at) || (found == None && unread == "" && |text| < 255 && at == start + |text|)
    ensures EndsAt(start, text, unread, at) && (at >= start + |text| ==> unread == "")
  {
  }

  lemma {:induction false} BehindLength(text: string, start: nat, at: nat)
    requires start <= at <= start + |text|
    ensures |Behind(text, start, at)| == if at < start + |text| then start + |text| - at - 1 else 0
  {
  }

  /** The bytes that were not processed are at the beginning of the buffer. */
  ghost predicate InFront(buffer: array<char>, pending: string)
    reads buffer
  {
    |pending| <= buffer.Length && NulFree(pending) && buffer[..|pending|] == pending
  }

  lemma {:induction false} NothingInFront(buffer: array<char>)
    ensures InFront(buffer, "")
  {
  }

  lemma {:induction false} FoundNewline(start: nat, text: string)
    ensures NewlineIn(start, text) == if IndexOf(text, '\n') < |text| then Some(start + IndexOf(text, '\n')) else None
  {
  }

  /** memmove of the leftover to the beginning of the buffer. */
  method MoveToFront(buffer: array<char>, position: nat, ghost left: string)
    requires TextAt(buffer, position, left)
    modifies buffer
    ensures InFront(buffer, left)
  {
    NoNuls(buffer, position, left);
    var leftover := StringLength(buffer, position, left);
    TextBytes(buffer, position, left);
    forall i | 0 <= i < leftover {
      buffer[i] := buffer[i + position];
    }
    assert buffer[..leftover] == left;
  }

  /**
   The inner loop of ConfigStore_Load and the move of the leftover: the lines in the buffer are handed over;
   `unread` is what the file still holds. Behind the very last line the leftover is -1.
   */
  method ProcessLines(store: Store, buffer: array<char>, filled: nat, fileSize: int, skipping: bool,
                      found: Option<nat>, floats: Floats,
                      ghost text: string, ghost unread: string, ghost all: seq<string>, ghost from: Origin,
                  ghost done: seq<string>)
    returns (leftover: int, skip: bool, ghost lines: seq<string>, ghost pending: string)
    requires TextAt(buffer, 0, text) && filled == |text| && 0 < filled <= 255 && fileSize == |unread|
             && buffer.Length == MAX_LINE_LENGTH
    requires found == NewlineIn(0, text) && (found == None ==> filled < 255)
    requires Due(all, done, text, unread, skipping) && Applied(store, from, done, floats)
    modifies store, buffer
    ensures -1 <= leftover < 255 && (fileSize == 0 ==> leftover <= 0) && (fileSize > 0 ==> leftover >= 0)
    ensures InFront(buffer, pending) && |pending| == (if leftover > 0 then leftover else 0)
    ensures Due(all, lines, pending, unread, skip) && Applied(store, from, lines, floats)
  {
    hide *;
    skip, lines, pending := skipping, done, text;
    var position, lineEnd := 0, found;
    while position < filled
      invariant position <= filled + 1 && (position == filled + 1 ==> fileSize == 0)
                && (position >= filled ==> pending == "")
      invariant position < filled ==>
                  TextAt(buffer, position, pending) && position + |pending| == filled
                  && lineEnd == NewlineIn(position, pending)
      invariant position < filled ==> lineEnd != None || |pending| < 255
      invariant Due(all, lines, pending, unread, skip) && Applied(store, from, lines, floats)
    {
      if lineEnd == None && fileSize <= 0 {
        EndFound(position, pending, unread, lineEnd, filled);
        lineEnd := Some(filled);
      } else if lineEnd != None {
        EndFound(position, pending, unread, lineEnd, lineEnd.value);
      }
      if lineEnd == None {
        break;
      }
      NextLine(store, buffer, position, lineEnd.value, skip, floats, pending, unread, all, from, lines);
      lines := Handed(lines, skip, pending, position, lineEnd.value);
      BehindLength(pending, position, lineEnd.value);
      pending := Behind(pending, position, lineEnd.value);
      skip := false;
      position := lineEnd.value + 1;
      if position >= filled {
        break;
      }
      lineEnd := StringFind(buffer, position, '\n', pending);
      FoundNewline(position, pending);
    }
    leftover := filled - position;
    if leftover > 0 {
      MoveToFront(buffer, position, pending);
    } else {
      NothingInFront(buffer);
    }
  }

  /** The filled part of the buffer is a C string. */
  lemma {:induction false} TextStands(a: array<char>, text: string, pending: string, data: string, before: nat,
                                      after: nat)
    requires |text| < a.Length && a[|text|] == '\0' && a[..|text|] == text
    requires before <= after <= |data| && text == pending + data[before..after] && NulFree(pending) && NulFree(data)
    ensures TextAt(a, 0, text)
  {
  }

  /** The read of ConfigStore_Load behind the leftover, and the terminator behind the bytes that were read. */
  method Fill(file: File, buffer: array<char>, leftover: int,
              ghost pending: string, ghost all: seq<string>, ghost done: seq<string>, ghost skip: bool)
    returns (readBytes: int, ghost text: string)
    requires file.position <= |file.data| && NulFree(file.data) && buffer.Length == MAX_LINE_LENGTH
    requires -1 <= leftover < 255 && (file.position < |file.data| ==> leftover >= 0)
             && (file.position == |file.data| ==> leftover <= 0)
    requires InFront(buffer, pending) && |pending| == (if leftover > 0 then leftover else 0)
    requires Due(all, done, pending, file.Rest(), skip)
    modifies file`position, buffer
    ensures old(file.position) <= file.position <= |file.data|
            && (readBytes < 0 ==> file.position == old(file.position))
    ensures readBytes >= 0 ==> file.position == old(file.position) + readBytes && leftover + readBytes <= 255
    ensures old(file.position) < |file.data| ==> readBytes != 0
    ensures readBytes >= 0 && leftover + readBytes > 0 ==>
              |text| == leftover + readBytes && TextAt(buffer, 0, text) && Due(all, done, text, file.Rest(), skip)
  {
    hide TextAt, NulFree, ToCome;
    text := "";
    ghost var before := file.position;
    readBytes := file.Read(buffer, leftover, MAX_LINE_LENGTH - leftover - 1);
    if readBytes >= 0 && leftover + readBytes > 0 {
      var filled := leftover + readBytes;
      assert readBytes > 0;
      buffer[filled] := '\0';
      text := buffer[..filled];
      assert text == pending + file.data[before..file.position];
      TextStands(buffer, text, pending, file.data, before, file.position);
      assert file.data[before..] == file.data[before..file.position] + file.data[file.position..];
      assert text + file.Rest() == pending + file.data[before..];
    }
  }

  lemma {:induction false} LineLength()
    ensures MAX_LINE_LENGTH == 256
  {
  }

  lemma {:induction false} RestSize(file: File)
    requires file.position <= |file.data|
    ensures |file.Rest()| == |file.data| - file.position && (file.position == |file.data| ==> file.Rest() == "")
    ensures file.position == 0 ==> file.Rest() == file.data[0..]
  {
  }

  lemma {:induction false} NothingApplied(store: Store, floats: Floats)
    ensures Applied(store, Origin(store.Contents(), store.log), [], floats)
  {
  }

  lemma {:induction false} IsApplied(store: Store, from: Origin, done: seq<string>, floats: Floats)
    requires Applied(store, from, done, floats)
    ensures store.Contents() == ApplyLines(from.config, done, floats) && store.log == from.log + done
  {
  }

  /** ConfigStore_Load behind the opening of the file. */
  method LoadLines(store: Store, file: File, floats: Floats) returns (ok: bool, ghost lines: seq<string>)
    requires file.position == 0 && NulFree(file.data)
    modifies store, file`position
    ensures store.Contents() == ApplyLines(old(store.Contents()), lines, floats)
    ensures store.log == old(store.log) + lines
    ensures lines <= Kept(Lines(file.data)) && (ok ==> lines == Kept(Lines(file.data)))
  {
    hide *;
    LineLength();
    ghost var all, from := Kept(Lines(file.data)), Origin(store.Contents(), store.log);
    lines := [];
    NothingApplied(store, floats);
    RestSize(file);
    DueAtStart(file.data);
    var fileSize: int := |file.data|;
    if fileSize <= 0 {
      IsApplied(store, from, lines, floats);
      DueAtEnd(all, lines, false);
      return true, lines;
    }
    var buffer := new char[MAX_LINE_LENGTH];
    var skip, leftover: int := false, 0;
    ghost var pending := "";
    NothingInFront(buffer);
    while true
      invariant file.position <= |file.data| && fileSize == |file.data| - file.position
      invariant -1 <= leftover < 255 && (fileSize == 0 ==> leftover <= 0) && (fileSize > 0 ==> leftover >= 0)
      invariant InFront(buffer, pending) && |pending| == (if leftover > 0 then leftover else 0)
      invariant Due(all, lines, pending, file.Rest(), skip) && Applied(store, from, lines, floats)
      decreases fileSize
    {
      DuePrefix(all, lines, pending, file.Rest(), skip);
      RestSize(file);
      var readBytes;
      ghost var text;
      readBytes, text := Fill(file, buffer, leftover, pending, all, lines, skip);
      RestSize(file);
      if readBytes < 0 {
        IsApplied(store, from, lines, floats);
        return false, lines;
      }
      fileSize := fileSize - readBytes;
      leftover := leftover + readBytes;
      if leftover <= 0 {
        break;
      }
      var lineEnd := StringFind(buffer, 0, '\n', text);
      FoundNewline(0, text);
      if lineEnd == None && leftover >= MAX_LINE_LENGTH - 1 {
        DueOverlong(all, lines, text, file.Rest(), skip);
        NothingInFront(buffer);
        skip := true;
        leftover := 0;
        pending := "";
        continue;
      }
      leftover, skip, lines, pending :=
        ProcessLines(store, buffer, leftover, fileSize, skip, lineEnd, floats, text, file.Rest(), all, from, lines);
    }
    IsApplied(store, from, lines, floats);
    DueAtEnd(all, lines, skip);
    return true, lines;
  }

  /**
   ConfigStore_Load. Without a file the answer is no and nothing changes. However the reads cut the file into pieces,
   the lines that are handed to parse_line are, in order, the lines of the file that fit the buffer; after a read error
   they are the first of them.
   */
  method Load(store: Store, file: File?, floats: Floats) returns (ok: bool, ghost lines: seq<string>)
    requires file != null ==> file.position == 0 && NulFree(file.data)
    modifies store, (if file == null then {} else {file})`position
    ensures store.Contents() == ApplyLines(old(store.Contents()), lines, floats)
    ensures store.log == old(store.log) + lines
    ensures file == null ==> !ok && lines == []
    ensures file != null ==> lines <= Kept(Lines(file.data)) && (ok ==> lines == Kept(Lines(file.data)))
  {
    hide Kept, Lines, NulFree;
    if file == null {
      return false, [];
    }
    ok, lines := LoadLines(store, file, floats);
  }
}
