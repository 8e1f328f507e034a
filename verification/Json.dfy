/** The JSON trees of cJSON and the text that print_value writes for them. */
module Json {
  import opened Prelude
  import opened StringCodec

  /**
   A tree of items, `cJSON.type` being the constructor. A number is a text: in a tree that was parsed, the numeral that
   names its double; in a tree that is rendered, what is written for it. `Spelled` leads from the one to the other.
   */
  datatype Json =
    | Null
    | False
    | True
    | Number(digits: string)
    | String(bytes: string)
    | Raw(text: string)
    | Array(items: seq<Json>)
    | Object(members: seq<Member>)

  datatype Member = Member(key: string, value: Json)

  /** CJSON_NESTING_LIMIT, libs/cjson/src/cJSON.h:134. */
  const NESTING_LIMIT := 1000

  function Max(a: nat, b: nat): nat { if a < b then b else a }

  /** The number of containers on the deepest path. */
  function Nesting(v: Json): nat {
    match v
    case Array(items) => 1 + ItemsNesting(items)
    case Object(members) => 1 + MembersNesting(members)
    case _ => 0
  }

  function ItemsNesting(items: seq<Json>): nat {
    if items == [] then 0 else Max(Nesting(items[0]), ItemsNesting(items[1..]))
  }

  function MembersNesting(members: seq<Member>): nat {
    if members == [] then 0 else Max(Nesting(members[0].value), MembersNesting(members[1..]))
  }

  // ---------------------------------------------------------------- numbers

  /** The bytes that parse_number collects. */
  predicate NumberByte(c: char) {
    '0' <= c <= '9' || c == '+' || c == '-' || c == 'e' || c == 'E' || c == '.'
  }

  predicate Digit(c: char) { '0' <= c <= '9' }

  /** The length of the run of digits at `p`. */
  function Digits(s: string, p: nat): (n: nat)
    requires p <= |s|
    ensures p + n <= |s|
    decreases |s| - p
  {
    if p < |s| && Digit(s[p]) then 1 + Digits(s, p + 1) else 0
  }

  /** The whole rest of `s` from `p` is an exponent. */
  predicate Exponent(s: string, p: nat)
    requires p < |s|
  {
    && (s[p] == 'e' || s[p] == 'E')
    && var q := if p + 1 < |s| && (s[p + 1] == '+' || s[p + 1] == '-') then p + 2 else p + 1;
       Digits(s, q) > 0 && q + Digits(s, q) == |s|
  }

  /** A decimal numeral as strtod takes it: sign, digits with at most one point, exponent. */
  predicate Numeral(s: string) {
    var p0 := if s != [] && (s[0] == '+' || s[0] == '-') then 1 else 0;
    var whole := Digits(s, p0);
    var p1 := p0 + whole;
    var fraction := if p1 < |s| && s[p1] == '.' then Digits(s, p1 + 1) else 0;
    var p2 := if p1 < |s| && s[p1] == '.' then p1 + 1 + fraction else p1;
    whole + fraction > 0 && (p2 == |s| || Exponent(s, p2))
  }

  /** A number text that parse_value recognises and that fits the 26-byte buffer of print_number. */
  predicate PrintedNumber(t: string) {
    && 0 < |t| <= 25
    && (t[0] == '-' || Digit(t[0]))
    && Numeral(t)
    && forall i :: 0 <= i < |t| ==> NumberByte(t[i])
  }

  // ---------------------------------------------------------------- trees that print

  /** Strings end at their terminator, and number texts fit print_number's buffer. */
  predicate Printable(v: Json) {
    match v
    case Number(t) => PrintedNumber(t)
    case String(s) => NulFree(s)
    case Raw(t) => NulFree(t)
    case Array(items) => forall i :: 0 <= i < |items| ==> Printable(items[i])
    case Object(members) => forall i :: 0 <= i < |members| ==> NulFree(members[i].key) && Printable(members[i].value)
    case _ => true
  }

  predicate RawFree(v: Json) {
    match v
    case Raw(_) => false
    case Array(items) => forall i :: 0 <= i < |items| ==> RawFree(items[i])
    case Object(members) => forall i :: 0 <= i < |members| ==> RawFree(members[i].value)
    case _ => true
  }

  /** What the reader can be asked to read back: printable, without raw text, at most `room` containers deep. */
  predicate Fits(v: Json, room: nat) {
    match v
    case Number(t) => PrintedNumber(t)
    case String(s) => NulFree(s)
    case Raw(_) => false
    case Array(items) => room > 0 && FitItems(items, room - 1)
    case Object(members) => room > 0 && FitMembers(members, room - 1)
    case _ => true
  }

  predicate FitItems(items: seq<Json>, room: nat) {
    items == [] || (Fits(items[0], room) && FitItems(items[1..], room))
  }

  predicate FitMembers(members: seq<Member>, room: nat) {
    members == [] || (NulFree(members[0].key) && Fits(members[0].value, room) && FitMembers(members[1..], room))
  }

  lemma {:induction false} FitsMeans(v: Json, room: nat)
    ensures Fits(v, room) <==> Printable(v) && RawFree(v) && Nesting(v) <= room
    decreases v, 1
  {
    match v
    case Array(items) => if room > 0 { FitItemsMeans(items, room - 1); }
    case Object(members) => if room > 0 { FitMembersMeans(members, room - 1); }
    case _ =>
  }

  lemma {:induction false} FitItemsMeans(items: seq<Json>, room: nat)
    ensures FitItems(items, room) <==> Printable(Array(items)) && RawFree(Array(items)) && ItemsNesting(items) <= room
    decreases items, 0
  {
    if items != [] {
      FitsMeans(items[0], room);
      FitItemsMeans(items[1..], room);
      assert items == [items[0]] + items[1..];
    }
  }

  lemma {:induction false} FitMembersMeans(members: seq<Member>, room: nat)
    ensures FitMembers(members, room) <==>
              Printable(Object(members)) && RawFree(Object(members)) && MembersNesting(members) <= room
    decreases members, 0
  {
    if members != [] {
      FitsMeans(members[0].value, room);
      FitMembersMeans(members[1..], room);
      assert members == [members[0]] + members[1..];
    }
  }

  // ---------------------------------------------------------------- how numbers are spelled

  /**
   What print_number writes for the numbers of a tree; `spell` stands for the conversion of a double to text. It
   writes "null" for infinities and NaN.
   */
  function Spelled(v: Json, spell: string -> string): (w: Json)
    ensures v.Array? <==> w.Array?
    ensures v.Object? <==> w.Object?
  {
    match v
    case Number(t) => if spell(t) == "null" then Null else Number(spell(t))
    case Array(items) => Array(seq(|items|, i requires 0 <= i < |items| => Spelled(items[i], spell)))
    case Object(members) =>
      Object(seq(|members|, i requires 0 <= i < |members| => Member(members[i].key, Spelled(members[i].value, spell))))
    case _ => v
  }

  /** Every text that print_number writes is "null" or a numeral of at most 25 bytes. */
  ghost predicate Spelling(spell: string -> string) {
    forall t :: spell(t) == "null" || PrintedNumber(spell(t))
  }

  /** No item of the tree is a number. */
  predicate NumberFree(v: Json) {
    match v
    case Number(_) => false
    case Array(items) => forall i :: 0 <= i < |items| ==> NumberFree(items[i])
    case Object(members) => forall i :: 0 <= i < |members| ==> NumberFree(members[i].value)
    case _ => true
  }

  /** Every number of the tree is named by the text that is written for it. */
  predicate AsSpelled(v: Json, spell: string -> string) {
    match v
    case Number(t) => spell(t) == t && t != "null"
    case Array(items) => forall i :: 0 <= i < |items| ==> AsSpelled(items[i], spell)
    case Object(members) => forall i :: 0 <= i < |members| ==> AsSpelled(members[i].value, spell)
    case _ => true
  }

  /** The text that is written for a number is what is written for the number that this text names. */
  predicate Settled(v: Json, spell: string -> string) {
    match v
    case Number(t) => spell(t) == "null" || spell(spell(t)) == spell(t)
    case Array(items) => forall i :: 0 <= i < |items| ==> Settled(items[i], spell)
    case Object(members) => forall i :: 0 <= i < |members| ==> Settled(members[i].value, spell)
    case _ => true
  }

  /** A tree is its own spelling exactly when its numbers are. */
  lemma {:induction false} SpelledIsSame(v: Json, spell: string -> string)
    ensures Spelled(v, spell) == v <==> AsSpelled(v, spell)
  {
    match v
    case Array(items) =>
      forall i | 0 <= i < |items| ensures Spelled(items[i], spell) == items[i] <==> AsSpelled(items[i], spell) {
        SpelledIsSame(items[i], spell);
      }
      assert Spelled(v, spell) == v <==> forall i :: 0 <= i < |items| ==> Spelled(v, spell).items[i] == items[i];
    case Object(members) =>
      forall i | 0 <= i < |members|
        ensures Spelled(members[i].value, spell) == members[i].value <==> AsSpelled(members[i].value, spell)
      {
        SpelledIsSame(members[i].value, spell);
      }
      assert Spelled(v, spell) == v <==> forall i :: 0 <= i < |members| ==> Spelled(v, spell).members[i] == members[i];
    case _ =>
  }

  /** Spelling a second time changes nothing exactly when the numbers have settled. */
  lemma {:induction false} SpelledSettles(v: Json, spell: string -> string)
    ensures AsSpelled(Spelled(v, spell), spell) <==> Settled(v, spell)
  {
    match v
    case Array(items) =>
      var w := Spelled(v, spell);
      forall i | 0 <= i < |items| ensures AsSpelled(w.items[i], spell) <==> Settled(items[i], spell) {
        SpelledSettles(items[i], spell);
      }
    case Object(members) =>
      var w := Spelled(v, spell);
      forall i | 0 <= i < |members| ensures AsSpelled(w.members[i].value, spell) <==> Settled(members[i].value, spell) {
        SpelledSettles(members[i].value, spell);
      }
    case _ =>
  }

  /** Trees without numbers are spelled as they are. */
  lemma {:induction false} NumberFreeIsSpelled(v: Json, spell: string -> string)
    requires NumberFree(v)
    ensures AsSpelled(v, spell) && Spelled(v, spell) == v
  {
    SpelledIsSame(v, spell);
    match v
    case Array(items) =>
      forall i | 0 <= i < |items| ensures AsSpelled(items[i], spell) {
        NumberFreeIsSpelled(items[i], spell);
      }
    case Object(members) =>
      forall i | 0 <= i < |members| ensures AsSpelled(members[i].value, spell) {
        NumberFreeIsSpelled(members[i].value, spell);
      }
    case _ =>
  }

  lemma {:induction false} SameItemsNesting(a: seq<Json>, b: seq<Json>)
    requires |a| == |b| && forall i :: 0 <= i < |a| ==> Nesting(a[i]) == Nesting(b[i])
    ensures ItemsNesting(a) == ItemsNesting(b)
  {
    if a != [] {
      SameItemsNesting(a[1..], b[1..]);
    }
  }

  lemma {:induction false} SameMembersNesting(a: seq<Member>, b: seq<Member>)
    requires |a| == |b| && forall i :: 0 <= i < |a| ==> Nesting(a[i].value) == Nesting(b[i].value)
    ensures MembersNesting(a) == MembersNesting(b)
  {
    if a != [] {
      SameMembersNesting(a[1..], b[1..]);
    }
  }

  /** Spelling keeps the nesting, and raw items. */
  lemma {:induction false} SpelledShape(v: Json, spell: string -> string)
    ensures Nesting(Spelled(v, spell)) == Nesting(v) && (RawFree(Spelled(v, spell)) <==> RawFree(v))
    decreases v, 1
  {
    match v
    case Array(items) =>
      var w := Spelled(v, spell).items;
      forall i | 0 <= i < |items| ensures Nesting(w[i]) == Nesting(items[i]) && (RawFree(w[i]) <==> RawFree(items[i])) {
        SpelledShape(items[i], spell);
      }
      SameItemsNesting(w, items);
    case Object(members) =>
      var w := Spelled(v, spell).members;
      forall i | 0 <= i < |members|
        ensures Nesting(w[i].value) == Nesting(members[i].value) && (RawFree(w[i].value) <==> RawFree(members[i].value))
      {
        SpelledShape(members[i].value, spell);
      }
      SameMembersNesting(w, members);
    case _ =>
  }

  // ---------------------------------------------------------------- the printed text

  function Tabs(n: nat): (r: string)
    ensures |r| == n && forall i :: 0 <= i < n ==> r[i] == '\t'
  {
    seq(n, i => '\t')
  }

  function ItemSeparator(format: bool): string { if format then ", " else "," }

  function MemberHead(key: string, format: bool, depth: nat): string {
    (if format then Tabs(depth) else "") + Quote(key) + (if format then ":\t" else ":")
  }

  function MemberTail(last: bool, format: bool): string {
    (if last then "" else ",") + (if format then "\n" else "")
  }

  /** The text of a tree, formatted or not, inside `depth` open containers. */
  function Render(v: Json, format: bool, depth: nat): (r: string)
    decreases v, 1
  {
    match v
    case Null => "null"
    case False => "false"
    case True => "true"
    case Number(t) => t
    case String(s) => Quote(s)
    case Raw(t) => t
    case Array(items) => "[" + RenderItems(items, format, depth + 1) + "]"
    case Object(members) =>
      (if format then "{\n" else "{") + RenderMembers(members, format, depth + 1)
      + (if format then Tabs(depth) else "") + "}"
  }

  function RenderItems(items: seq<Json>, format: bool, depth: nat): string
    decreases items, 0
  {
    if items == [] then ""
    else if |items| == 1 then Render(items[0], format, depth)
    else Render(items[0], format, depth) + ItemSeparator(format) + RenderItems(items[1..], format, depth)
  }

  function RenderMembers(members: seq<Member>, format: bool, depth: nat): string
    decreases members, 0
  {
    if members == [] then ""
    else
      MemberHead(members[0].key, format, depth) + Render(members[0].value, format, depth)
      + MemberTail(|members| == 1, format) + RenderMembers(members[1..], format, depth)
  }

  // ---------------------------------------------------------------- the layout

  /** The parts with a separator between any two of them. */
  function Joined(parts: seq<string>, separator: string): string {
    if parts == [] then "" else if |parts| == 1 then parts[0] else parts[0] + separator + Joined(parts[1..], separator)
  }

  function ItemTexts(items: seq<Json>, format: bool, depth: nat): (parts: seq<string>) {
    seq(|items|, i requires 0 <= i < |items| => Render(items[i], format, depth))
  }

  /** Each member with its key: on a line of its own behind `depth` tabs, if formatted. */
  function MemberTexts(members: seq<Member>, format: bool, depth: nat): (parts: seq<string>) {
    seq(|members|, i requires 0 <= i < |members| =>
      if format then Tabs(depth) + Quote(members[i].key) + ":\t" + Render(members[i].value, format, depth)
      else Quote(members[i].key) + ":" + Render(members[i].value, format, depth))
  }

  lemma {:induction false} ItemsJoined(items: seq<Json>, format: bool, depth: nat)
    ensures RenderItems(items, format, depth) == Joined(ItemTexts(items, format, depth), if format then ", " else ",")
  {
    hide Render;
    if |items| > 1 {
      ItemsJoined(items[1..], format, depth);
      assert ItemTexts(items, format, depth)[1..] == ItemTexts(items[1..], format, depth);
    }
  }

  lemma {:induction false} FirstMemberText(members: seq<Member>, format: bool, depth: nat)
    requires members != []
    ensures var parts := MemberTexts(members, format, depth);
            && |parts| == |members| && parts[1..] == MemberTexts(members[1..], format, depth)
            && parts[0] == MemberHead(members[0].key, format, depth) + Render(members[0].value, format, depth)
  {
    hide Render, Tabs, Quote;
  }

  lemma {:induction false} MembersJoined(members: seq<Member>, format: bool, depth: nat)
    requires members != []
    ensures RenderMembers(members, format, depth)
            == Joined(MemberTexts(members, format, depth), if format then ",\n" else ",") + if format then "\n" else ""
  {
    hide Render, MemberHead, MemberTexts;
    FirstMemberText(members, format, depth);
    if |members| > 1 {
      MembersJoined(members[1..], format, depth);
    } else {
      assert RenderMembers(members[1..], format, depth) == "";
    }
  }

  /** An array is printed on one line, with a comma, and a space if formatted, between its items. */
  lemma {:induction false} ArrayLayout(items: seq<Json>, format: bool, depth: nat)
    ensures Render(Array(items), format, depth) ==
            "[" + Joined(ItemTexts(items, format, depth + 1), if format then ", " else ",") + "]"
  {
    hide Joined, ItemTexts, RenderItems;
    ItemsJoined(items, format, depth + 1);
  }

  lemma {:induction false} NoMemberText(format: bool, depth: nat)
    ensures RenderMembers([], format, depth) == "" && Joined(MemberTexts([], format, depth), ",") == ""
  {
  }

  /**
   An object is printed with its members on lines of their own, one tab deeper than the object, and the closing brace on
   a line behind as many tabs as containers are open; or, not formatted, without any white space.
   */
  lemma {:induction false} ObjectLayout(members: seq<Member>, format: bool, depth: nat)
    ensures var parts := MemberTexts(members, format, depth + 1);
            Render(Object(members), format, depth) ==
            if !format then "{" + Joined(parts, ",") + "}"
            else if members == [] then "{\n" + Tabs(depth) + "}"
            else "{\n" + Joined(parts, ",\n") + "\n" + Tabs(depth) + "}"
  {
    hide Joined, MemberTexts, RenderMembers, Tabs;
    if members == [] {
      NoMemberText(format, depth + 1);
    } else {
      MembersJoined(members, format, depth + 1);
    }
  }
}
