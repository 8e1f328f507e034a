/**
 The language of the parser, apart from how it is read: a text is put together from tokens and the white space between
 them, and the parser accepts exactly the texts that can be put together in this way.
 */
module Grammar {
  import opened Prelude
  import opened StringCodec
  import opened Json
  import opened JsonReader
  import opened RoundTrip

  // ---------------------------------------------------------------- numerals

  predicate Figure(c: char) { 0x30 <= c as int <= 0x39 }

  predicate Figures(s: string) { forall i :: 0 <= i < |s| ==> Figure(s[i]) }

  /** What can stand in front of an exponent. */
  predicate Mark(m: string) {
    m == "e" || m == "E" || m == "e+" || m == "E+" || m == "e-" || m == "E-"
  }

  /** The text of a value, token by token. */
  datatype Form =
    | NullForm
    | FalseForm
    | TrueForm
    | NumberForm(digits: string)
    | StringForm(text: string, bytes: string)
    | ArrayForm(inside: string, slots: seq<Slot>)
    | ObjectForm(inside: string, entries: seq<Entry>)

  /** A value between white space. */
  datatype Slot = Slot(before: string, form: Form, after: string)

  datatype Entry = Entry(before: string, key: string, name: string, beforeColon: string, slot: Slot)

  function Text(f: Form): string
    decreases f, 2
  {
    match f
    case NullForm => "null"
    case FalseForm => "false"
    case TrueForm => "true"
    case NumberForm(digits) => digits
    case StringForm(text, _) => text
    case ArrayForm(inside, slots) => "[" + if slots == [] then inside + "]" else SlotsText(slots)
    case ObjectForm(inside, entries) => "{" + if entries == [] then inside + "}" else EntriesText(entries)
  }

  /** A decimal numeral as its parts. */
  datatype Parts = Parts(sign: string, whole: string, point: string, fraction: string, mark: string, power: string) {
    predicate Valid() {
      && (sign == "" || sign == "+" || sign == "-")
      && Figures(whole) && Figures(fraction) && Figures(power) && whole + fraction != ""
      && (point == "." || (point == "" && fraction == ""))
      && (if mark == "" then power == "" else power != "" && Mark(mark))
    }

    function Tail(): string { if mark == "" then "" else mark + power }

    function Text(): string { sign + (whole + (point + (fraction + Tail()))) }
  }

  lemma {:induction false} DigitsAre(t: string, p: nat, n: nat)
    requires p + n <= |t| && (forall i :: p <= i < p + n ==> Figure(t[i])) && (p + n < |t| ==> !Figure(t[p + n]))
    ensures Digits(t, p) == n
    decreases n
  {
    if n > 0 {
      DigitsAre(t, p + 1, n - 1);
    }
  }

  lemma {:induction false} DigitsFound(t: string, p: nat)
    requires p <= |t|
    ensures var n := Digits(t, p);
            p + n <= |t| && Figures(t[p..p + n]) && (p + n < |t| ==> !Figure(t[p + n]))
    decreases |t| - p
  {
    if p < |t| && Digit(t[p]) {
      DigitsFound(t, p + 1);
      var n := Digits(t, p + 1);
      assert t[p..p + 1 + n] == [t[p]] + t[p + 1..p + 1 + n];
    }
  }

  /** The run of digits in a text that stands at `p`, in front of `next`, which starts with none. */
  lemma {:induction false} DigitsOf(t: string, p: nat, w: string, next: string)
    requires p + |w| + |next| == |t| && t[p..] == w + next && Figures(w) && (next != "" ==> !Figure(next[0]))
    ensures Digits(t, p) == |w| && t[p + |w|..] == next
  {
    assert t[p + |w|..] == t[p..][|w|..];
    forall i | p <= i < p + |w| ensures Figure(t[i]) {
      assert t[i] == t[p..][i - p] == w[i - p];
    }
    if next != "" {
      assert t[p + |w|] == t[p..][|w|];
    }
    DigitsAre(t, p, |w|);
  }

  lemma {:induction false} TailExponent(t: string, p: nat, mark: string, power: string)
    requires p <= |t| && t[p..] == mark + power && Mark(mark) && power != "" && Figures(power)
    ensures p < |t| && Exponent(t, p)
  {
    var q := p + |mark|;
    assert forall i :: 0 <= i < |mark| ==> t[p + i] == t[p..][i] == mark[i];
    assert t[q] == t[p..][|mark|] == power[0];
    assert t[q..] == t[p..][|mark|..] == power == power + "";
    DigitsOf(t, q, power, "");
  }

  lemma {:induction false} Split(t: string, p: nat, a: string, b: string)
    requires p <= |t| && t[p..] == a + b
    ensures p + |a| <= |t| && t[p + |a|..] == b && (a != "" ==> t[p] == a[0])
  {
    assert t[p + |a|..] == t[p..][|a|..];
    assert a != "" ==> t[p] == t[p..][0];
  }

  lemma {:induction false} TailHead(n: Parts)
    requires n.Valid()
    ensures n.Tail() != "" ==> !Figure(n.Tail()[0]) && n.Tail()[0] != '.'
  {
  }

  lemma {:induction false} PartsFacts(n: Parts)
    requires n.Valid()
    ensures Figures(n.whole) && Figures(n.fraction) && |n.whole| + |n.fraction| > 0
    ensures n.point == "." || (n.point == "" && n.fraction == "")
    ensures n.mark != "" ==> n.power != "" && Mark(n.mark) && Figures(n.power)
    ensures n.Text() == n.sign + (n.whole + (n.point + (n.fraction + n.Tail())))
    ensures n.Tail() == if n.mark == "" then "" else n.mark + n.power
  {
    assert n.whole + n.fraction != "";
  }

  /** The tail is an exponent or nothing. */
  lemma {:induction false} TailEnds(n: Parts, t: string, q: nat, p: nat)
    requires n.Valid() && p <= |t| && t[p..] == n.point + (n.fraction + n.Tail())
    requires q == p + (if n.point == "." then 1 else 0) + |n.fraction|
    ensures q <= |t| && (q == |t| || Exponent(t, q))
  {
    hide *;
    PartsFacts(n);
    assert |n.point| == if n.point == "." then 1 else 0;
    assert t[q..] == t[p..][|n.point| + |n.fraction|..];
    if n.mark != "" {
      TailExponent(t, q, n.mark, n.power);
    }
  }

  lemma {:induction false} PointShows(n: Parts, t: string, p: nat)
    requires n.Valid() && p <= |t| && t[p..] == n.point + (n.fraction + n.Tail())
    ensures n.point == "." <==> p < |t| && t[p] == '.'
    ensures n.point == "." ==> p + 1 <= |t| && t[p + 1..] == n.fraction + n.Tail()
    ensures n.point != "." ==> |n.fraction| == 0
  {
    hide *;
    PartsFacts(n);
    TailHead(n);
    if n.point == "." {
      Split(t, p, ".", n.fraction + n.Tail());
    } else {
      assert "" + ("" + n.Tail()) == n.Tail();
      assert p < |t| ==> t[p] == t[p..][0];
    }
  }

  lemma {:induction false} FractionDigits(n: Parts, t: string, p: nat)
    requires n.Valid() && p <= |t| && t[p..] == n.fraction + n.Tail()
    ensures Digits(t, p) == |n.fraction|
  {
    hide *;
    PartsFacts(n);
    TailHead(n);
    DigitsOf(t, p, n.fraction, n.Tail());
  }

  /** The fraction, or none, up to the tail. */
  lemma {:induction false} FractionEnds(n: Parts, t: string, p: nat) returns (dotted: bool, fraction: nat)
    requires n.Valid() && p <= |t| && t[p..] == n.point + (n.fraction + n.Tail())
    ensures dotted <==> p < |t| && t[p] == '.'
    ensures fraction == |n.fraction| && if dotted then Digits(t, p + 1) == fraction else fraction == 0
    ensures var q := p + (if dotted then 1 else 0) + fraction; q <= |t| && (q == |t| || Exponent(t, q))
  {
    hide *;
    dotted, fraction := n.point == ".", |n.fraction|;
    PointShows(n, t, p);
    TailEnds(n, t, p + (if dotted then 1 else 0) + fraction, p);
    if dotted {
      FractionDigits(n, t, p + 1);
    }
  }

  /** What a numeral comes to, given where its parts are. */
  lemma {:induction false} NumeralAtParts(t: string, p0: nat, whole: nat, point: bool, fraction: nat)
    requires p0 == (if t != "" && (t[0] == '+' || t[0] == '-') then 1 else 0) && Digits(t, p0) == whole
    requires point <==> p0 + whole < |t| && t[p0 + whole] == '.'
    requires if point then Digits(t, p0 + whole + 1) == fraction else fraction == 0
    ensures var p2 := p0 + whole + (if point then 1 else 0) + fraction;
            p2 <= |t| && (Numeral(t) <==> whole + fraction > 0 && (p2 == |t| || Exponent(t, p2)))
  {
    hide Digits, Exponent;
  }

  lemma {:induction false} BackHead(n: Parts)
    requires n.Valid()
    ensures var back := n.point + (n.fraction + n.Tail()); back != "" ==> !Figure(back[0])
  {
    TailHead(n);
    if n.point == "" {
      assert n.point + (n.fraction + n.Tail()) == n.Tail();
    }
  }

  lemma {:induction false} SignFirst(n: Parts)
    requires n.Valid()
    ensures var t := n.Text(); t != "" && |n.sign| == (if t[0] == '+' || t[0] == '-' then 1 else 0)
  {
    var t := n.Text();
    if n.sign == "" {
      assert t[0] == if n.whole != "" then n.whole[0] else '.';
    }
  }

  lemma {:induction false} DropFront(a: string, b: string)
    ensures (a + b)[|a|..] == b
  {
  }

  /** Where the parts of the text are. */
  lemma {:induction false} PartsPlaced(n: Parts) returns (dotted: bool, fraction: nat)
    requires n.Valid()
    ensures var t, p1 := n.Text(), |n.sign| + |n.whole|;
            && p1 <= |t| && Digits(t, |n.sign|) == |n.whole| && (dotted <==> p1 < |t| && t[p1] == '.')
            && fraction == |n.fraction| && (if dotted then Digits(t, p1 + 1) == fraction else fraction == 0)
            && var q := p1 + (if dotted then 1 else 0) + fraction; q <= |t| && (q == |t| || Exponent(t, q))
  {
    hide *;
    PartsFacts(n);
    var back := n.point + (n.fraction + n.Tail());
    DropFront(n.sign, n.whole + back);
    BackHead(n);
    DigitsOf(n.Text(), |n.sign|, n.whole, back);
    dotted, fraction := FractionEnds(n, n.Text(), |n.sign| + |n.whole|);
  }

  /** Every such text is a numeral. */
  lemma {:induction false} PartsAreNumeral(n: Parts)
    requires n.Valid()
    ensures Numeral(n.Text())
  {
    hide *;
    PartsFacts(n);
    SignFirst(n);
    var dotted, fraction := PartsPlaced(n);
    NumeralAtParts(n.Text(), |n.sign|, |n.whole|, dotted, fraction);
  }

  lemma {:induction false} ExponentEnds(t: string, p: nat, q: nat)
    requires p < |t| && Exponent(t, p)
    requires q == if p + 1 < |t| && (t[p + 1] == '+' || t[p + 1] == '-') then p + 2 else p + 1
    ensures q <= |t| && Digits(t, q) > 0 && q + Digits(t, q) == |t|
  {
    hide Digits;
  }

  lemma {:induction false} ExponentFound(t: string, p: nat) returns (mark: string, power: string)
    requires p < |t| && Exponent(t, p)
    ensures Mark(mark) && power != "" && Figures(power) && t[p..] == mark + power
  {
    hide Digits, Figures;
    var q := if p + 1 < |t| && (t[p + 1] == '+' || t[p + 1] == '-') then p + 2 else p + 1;
    DigitsFound(t, q);
    ExponentEnds(t, p, q);
    mark, power := t[p..q], t[q..];
    assert power == t[q..q + Digits(t, q)];
    assert t[p..] == mark + power;
    if q == p + 1 {
      assert mark == [t[p]];
    } else {
      assert mark == [t[p], t[p + 1]];
    }
  }

  /** The text `a` stands in `t` from `p` up to `q`. */
  predicate Joins(t: string, p: nat, a: string, q: nat) {
    q == p + |a| <= |t| && t[p..] == a + t[q..]
  }

  /** The fraction behind a point, or neither. */
  lemma {:induction false} FractionFound(t: string, p: nat)
    returns (dotted: bool, point: string, fraction: string)
    requires p <= |t|
    ensures dotted <==> p < |t| && t[p] == '.'
    ensures point == (if dotted then "." else "") && |point| == (if dotted then 1 else 0) && Figures(fraction)
    ensures if dotted then |fraction| == Digits(t, p + 1) else fraction == ""
    ensures p + |point| + |fraction| <= |t| && Joins(t, p, point + fraction, p + |point| + |fraction|)
  {
    hide Digits;
    dotted, point, fraction := p < |t| && t[p] == '.', "", "";
    if dotted {
      DigitsFound(t, p + 1);
      point, fraction := ".", t[p + 1..p + 1 + Digits(t, p + 1)];
    }
  }

  lemma {:induction false} TailFound(t: string, p: nat) returns (mark: string, power: string)
    requires p <= |t| && (p == |t| || Exponent(t, p))
    ensures if mark == "" then power == "" else power != "" && Mark(mark) && Figures(power)
    ensures Joins(t, p, if mark == "" then "" else mark + power, |t|)
  {
    hide Exponent, Figures;
    mark, power := "", "";
    if p < |t| {
      mark, power := ExponentFound(t, p);
    }
  }

  lemma {:induction false} NoFigures()
    ensures Figures("") && !Mark("")
  {
  }

  lemma {:induction false} PartsValid(n: Parts)
    requires n.sign == "" || n.sign == "+" || n.sign == "-"
    requires Figures(n.whole) && Figures(n.fraction) && |n.whole| + |n.fraction| > 0
    requires n.point == "." || (n.point == "" && n.fraction == "")
    requires if n.mark == "" then n.power == "" else n.power != "" && Mark(n.mark) && Figures(n.power)
    ensures n.Valid()
  {
    hide Mark, Figures;
    NoFigures();
    assert |n.whole + n.fraction| > 0;
  }

  lemma {:induction false} TextIs(n: Parts)
    ensures n.Text() == n.sign + (n.whole + (n.point + (n.fraction + n.Tail())))
    ensures n.Tail() == if n.mark == "" then "" else n.mark + n.power
  {
  }

  lemma {:induction false} SignFound(t: string) returns (sign: string)
    ensures sign == "" || sign == "+" || sign == "-"
    ensures |sign| == if t != "" && (t[0] == '+' || t[0] == '-') then 1 else 0
    ensures Joins(t, 0, sign, |sign|)
  {
    sign := if t != "" && (t[0] == '+' || t[0] == '-') then [t[0]] else "";
  }

  lemma {:induction false} WholeFound(t: string, p: nat) returns (whole: string)
    requires p <= |t|
    ensures Figures(whole) && |whole| == Digits(t, p) && p + |whole| <= |t| && Joins(t, p, whole, p + |whole|)
  {
    hide Digits, Figures;
    DigitsFound(t, p);
    whole := t[p..p + Digits(t, p)];
  }

  /** The parts make up the text. */
  lemma {:induction false} PartsJoined(n: Parts, t: string, p0: nat, p1: nat, p2: nat)
    requires Joins(t, 0, n.sign, p0) && Joins(t, p0, n.whole, p1) && Joins(t, p1, n.point + n.fraction, p2)
    requires Joins(t, p2, if n.mark == "" then "" else n.mark + n.power, |t|)
    ensures n.Text() == t
  {
    hide Figures, Mark;
    TextIs(n);
    assert t[0..] == t && t[|t|..] == "";
    assert t[p2..] == n.Tail();
    assert t[p1..] == n.point + (n.fraction + n.Tail());
  }

  /** And every numeral is such a text. */
  lemma {:induction false} NumeralHasParts(t: string) returns (n: Parts)
    requires Numeral(t)
    ensures n.Valid() && n.Text() == t
  {
    hide *;
    var sign := SignFound(t);
    var p0 := |sign|;
    var whole := WholeFound(t, p0);
    var p1 := p0 + |whole|;
    var dotted, point, fraction := FractionFound(t, p1);
    NumeralAtParts(t, p0, |whole|, dotted, |fraction|);
    var p2 := p1 + |point| + |fraction|;
    var mark, power := TailFound(t, p2);
    n := Parts(sign, whole, point, fraction, mark, power);
    PartsValid(n);
    PartsJoined(n, t, p0, p1, p2);
  }

  /** The bytes that parse_number collects are those of numerals. */
  lemma {:induction false} NumeralBytes(n: Parts)
    requires n.Valid()
    ensures forall i :: 0 <= i < |n.Text()| ==> NumberByte(n.Text()[i])
  {
    assert forall c :: c in n.sign || c in n.point || c in n.mark ==> NumberByte(c);
    assert forall c :: c in n.whole || c in n.fraction || c in n.power ==> Figure(c);
    forall i | 0 <= i < |n.Text()| ensures NumberByte(n.Text()[i]) {
      assert n.Text()[i] in n.Text();
    }
  }

  // ---------------------------------------------------------------- forms

  /** White space: any bytes from 1 to 32. */
  predicate Gap(t: string) { forall i :: 0 <= i < |t| ==> 1 <= t[i] as int <= 32 }

  function SlotText(slot: Slot): string
    decreases slot, 3
  {
    slot.before + Text(slot.form) + slot.after
  }

  /** The values with commas between them and the closing bracket. */
  function SlotsText(slots: seq<Slot>): string
    decreases slots, 0
  {
    if slots == [] then ""
    else SlotText(slots[0]) + if |slots| == 1 then "]" else "," + SlotsText(slots[1..])
  }

  function EntryText(entry: Entry): string
    decreases entry, 4
  {
    entry.before + entry.key + entry.beforeColon + ":" + SlotText(entry.slot)
  }

  function EntriesText(entries: seq<Entry>): string
    decreases entries, 0
  {
    if entries == [] then ""
    else EntryText(entries[0]) + if |entries| == 1 then "}" else "," + EntriesText(entries[1..])
  }

  /** The tree that is meant. */
  function Tree(f: Form): Json
    decreases f, 2
  {
    match f
    case NullForm => Null
    case FalseForm => False
    case TrueForm => True
    case NumberForm(digits) => Number(digits)
    case StringForm(_, bytes) => String(bytes)
    case ArrayForm(_, slots) => Array(Trees(slots))
    case ObjectForm(_, entries) => Object(Members(entries))
  }

  function Trees(slots: seq<Slot>): seq<Json>
    decreases slots, 0
  {
    if slots == [] then [] else [Tree(slots[0].form)] + Trees(slots[1..])
  }

  function Members(entries: seq<Entry>): seq<Member>
    decreases entries, 0
  {
    if entries == [] then [] else [Member(entries[0].name, Tree(entries[0].slot.form))] + Members(entries[1..])
  }

  /** A text that is a string literal from end to end, and the string it is read as. */
  predicate IsLiteral(text: string, bytes: string) {
    text != "" && ReadString(text, 0) == Some((bytes, |text|))
  }

  /** A numeral of at most 63 bytes that starts with a digit or a minus sign. */
  ghost predicate IsNumber(digits: string) {
    && 0 < |digits| <= 63 && (digits[0] == '-' || Figure(digits[0]))
    && exists n: Parts :: n.Valid() && n.Text() == digits
  }

  /** The tokens are tokens, white space is between them only, and at most `room` containers are open at once. */
  ghost predicate Proper(f: Form, room: nat)
    decreases f, 2
  {
    match f
    case NumberForm(digits) => IsNumber(digits)
    case StringForm(text, bytes) => IsLiteral(text, bytes)
    case ArrayForm(inside, slots) => room > 0 && Gap(inside) && ProperSlots(slots, room - 1)
    case ObjectForm(inside, entries) => room > 0 && Gap(inside) && ProperEntries(entries, room - 1)
    case _ => true
  }

  ghost predicate ProperSlot(slot: Slot, room: nat)
    decreases slot, 3
  {
    Gap(slot.before) && Proper(slot.form, room) && Gap(slot.after)
  }

  ghost predicate ProperSlots(slots: seq<Slot>, room: nat)
    decreases slots, 0
  {
    slots == [] || (ProperSlot(slots[0], room) && ProperSlots(slots[1..], room))
  }

  ghost predicate ProperEntry(entry: Entry, room: nat)
    decreases entry, 4
  {
    Gap(entry.before) && IsLiteral(entry.key, entry.name) && Gap(entry.beforeColon) && ProperSlot(entry.slot, room)
  }

  ghost predicate ProperEntries(entries: seq<Entry>, room: nat)
    decreases entries, 0
  {
    entries == [] || (ProperEntry(entries[0], room) && ProperEntries(entries[1..], room))
  }

  /** A document: a byte order mark or none, and a value between white space. */
  datatype Document = Document(mark: bool, slot: Slot) {
    function Front(): string { if mark then [0xEF as char, 0xBB as char, 0xBF as char] else "" }

    function Text(): string { Front() + SlotText(slot) }

    ghost predicate Proper() { ProperSlot(slot, 1000) }
  }

  // ---------------------------------------------------------------- every such text is read

  lemma {:induction false} NumberIsRead(digits: string, s: string, p: nat)
    requires IsNumber(digits) && Terminated(s) && At(s, p, digits) && p + |digits| < |s|
    requires !NumberByte(s[p + |digits|])
    ensures ParseNumber(s, p) == Some((Number(digits), p + |digits|))
  {
    hide Numeral, Cut;
    var n: Parts :| n.Valid() && n.Text() == digits;
    PartsAreNumeral(n);
    NumeralBytes(n);
    NumeralAt(digits, s, p);
  }

  /** The first byte of a value is visible and no punctuation. */
  lemma {:induction false} FormHead(f: Form, room: nat)
    requires Proper(f, room)
    ensures Text(f) != ""
    ensures var c := Text(f)[0]; 32 < c as int < 128 && c != ',' && c != ':' && c != ']' && c != '}'
  {
    hide ProperSlots, ProperEntries, SlotsText, EntriesText;
  }

  /** White space in front of a visible byte is skipped exactly. */
  lemma {:induction false} GapIsSkipped(s: string, p: nat, gap: string)
    requires Terminated(s) && At(s, p, gap) && Gap(gap) && p + |gap| < |s| && s[p + |gap|] as int > 32
    ensures SkipBlanks(s, p) == p + |gap|
  {
    hide Cut, SkipBlanks;
    forall i | p <= i < p + |gap| ensures Blank(s[i]) {
      AtByte(s, p, gap, i - p);
    }
    SkipsTo(s, p, p + |gap|);
  }

  /** What follows a value does not continue a number. */
  lemma {:induction false} GapEndsNumber(s: string, p: nat, gap: string)
    requires At(s, p, gap) && Gap(gap) && p + |gap| < |s| && !NumberByte(s[p + |gap|])
    ensures !NumberByte(s[p])
  {
    if gap != "" {
      AtByte(s, p, gap, 0);
    }
  }

  lemma {:induction false} SlotParts(slot: Slot, s: string, p: nat) returns (v: nat, r: nat)
    requires At(s, p, SlotText(slot))
    ensures v == p + |slot.before| && r == v + |Text(slot.form)| && r + |slot.after| == p + |SlotText(slot)|
    ensures At(s, p, slot.before) && At(s, v, Text(slot.form)) && At(s, r, slot.after)
  {
    hide Cut, Text;
    v := p + |slot.before|;
    r := v + |Text(slot.form)|;
    AtConcat(s, p, slot.before + Text(slot.form), slot.after);
    AtConcat(s, p, slot.before, Text(slot.form));
  }

  lemma {:induction false} SlotsUnfold(slots: seq<Slot>)
    requires slots != []
    ensures SlotsText(slots) == SlotText(slots[0]) + if |slots| == 1 then "]" else "," + SlotsText(slots[1..])
  {
  }

  lemma {:induction false} EntriesUnfold(entries: seq<Entry>)
    requires entries != []
    ensures EntriesText(entries)
            == EntryText(entries[0]) + if |entries| == 1 then "}" else "," + EntriesText(entries[1..])
  {
  }

  lemma {:induction false} SlotsParts(slots: seq<Slot>, s: string, p: nat) returns (c: nat)
    requires slots != [] && At(s, p, SlotsText(slots))
    ensures At(s, p, SlotText(slots[0])) && c == p + |SlotText(slots[0])| < |s|
    ensures s[c] == if |slots| == 1 then ']' else ','
    ensures |slots| == 1 ==> p + |SlotsText(slots)| == c + 1
    ensures |slots| > 1 ==>
              At(s, c + 1, SlotsText(slots[1..])) && p + |SlotsText(slots)| == c + 1 + |SlotsText(slots[1..])|
  {
    hide *;
    var back := if |slots| == 1 then "]" else "," + SlotsText(slots[1..]);
    SlotsUnfold(slots);
    c := p + |SlotText(slots[0])|;
    AtConcat(s, p, SlotText(slots[0]), back);
    AtByte(s, c, back, 0);
    if |slots| > 1 {
      AtConcat(s, c, ",", SlotsText(slots[1..]));
    }
  }

  lemma {:induction false} EntryParts(entry: Entry, s: string, p: nat) returns (k: nat, n: nat, c: nat)
    requires At(s, p, EntryText(entry))
    ensures At(s, p, entry.before) && k == p + |entry.before|
    ensures At(s, k, entry.key) && n == k + |entry.key|
    ensures At(s, n, entry.beforeColon) && c == n + |entry.beforeColon| < |s| && s[c] == ':'
    ensures At(s, c + 1, SlotText(entry.slot)) && p + |EntryText(entry)| == c + 1 + |SlotText(entry.slot)|
  {
    hide Cut, SlotText;
    k := p + |entry.before|;
    n := k + |entry.key|;
    c := n + |entry.beforeColon|;
    AtConcat(s, p, entry.before + entry.key + entry.beforeColon + ":", SlotText(entry.slot));
    AtFour(s, p, entry.before, entry.key, entry.beforeColon, ":");
    AtByte(s, c, ":", 0);
  }

  lemma {:induction false} EntriesParts(entries: seq<Entry>, s: string, p: nat) returns (c: nat)
    requires entries != [] && At(s, p, EntriesText(entries))
    ensures At(s, p, EntryText(entries[0])) && c == p + |EntryText(entries[0])| < |s|
    ensures s[c] == if |entries| == 1 then '}' else ','
    ensures |entries| == 1 ==> p + |EntriesText(entries)| == c + 1
    ensures |entries| > 1 ==>
              At(s, c + 1, EntriesText(entries[1..]))
              && p + |EntriesText(entries)| == c + 1 + |EntriesText(entries[1..])|
  {
    hide *;
    var back := if |entries| == 1 then "}" else "," + EntriesText(entries[1..]);
    EntriesUnfold(entries);
    c := p + |EntryText(entries[0])|;
    AtConcat(s, p, EntryText(entries[0]), back);
    AtByte(s, c, back, 0);
    if |entries| > 1 {
      AtConcat(s, c, ",", EntriesText(entries[1..]));
    }
  }

  lemma {:induction false} SkipsTwice(s: string, p: nat)
    requires Terminated(s) && p <= |s|
    ensures SkipBlanks(s, SkipBlanks(s, p)) == SkipBlanks(s, p)
    decreases |s| - p
  {
    if p < |s| && Blank(s[p]) {
      SkipsTwice(s, p + 1);
    }
  }

  /** White space in front of the first item or member is skipped once more. */
  lemma {:induction false} StartsBlank(s: string, p: nat, depth: nat)
    requires Terminated(s) && p < |s| && depth <= NESTING_LIMIT
    ensures ParseItems(s, SkipBlanks(s, p), depth) == ParseItems(s, p, depth)
    ensures ParseMembers(s, SkipBlanks(s, p), depth) == ParseMembers(s, p, depth)
  {
    hide ParseValue, ReadString, SkipBlanks;
    SkipsTwice(s, p);
    assert ParseMember(s, SkipBlanks(s, p), depth) == ParseMember(s, p, depth);
  }

  lemma {:induction false} NumberHead(digits: string)
    requires IsNumber(digits)
    ensures digits != "" && NumberStart(digits[0])
  {
  }

  lemma {:induction false} LiteralHead(text: string, bytes: string)
    requires IsLiteral(text, bytes)
    ensures text != "" && text[0] == '\"'
  {
    hide ClosingQuote, Unescape;
  }

  /** A value without children. */
  lemma {:induction false} LeafIsRead(f: Form, s: string, p: nat, depth: nat)
    requires !f.ArrayForm? && !f.ObjectForm? && depth <= 1000 && Proper(f, 1000 - depth) && Terminated(s)
    requires At(s, p, Text(f)) && p + |Text(f)| < |s| && !NumberByte(s[p + |Text(f)|])
    ensures p < |s| && ParseValue(s, p, depth) == Some((Tree(f), p + |Text(f)|))
  {
    hide Cut, ParseNumber, ReadString, SkipBlanks, ParseItems, ParseMembers, IsNumber;
    FormHead(f, 1000 - depth);
    AtByte(s, p, Text(f), 0);
    match f {
      case NullForm =>
      case FalseForm => WordHead(s, p, "null");
      case TrueForm => WordHead(s, p, "null"); WordHead(s, p, "false");
      case NumberForm(digits) =>
        NumberHead(digits);
        NoWordAt(s, p);
        NumberIsRead(digits, s, p);
      case StringForm(text, bytes) =>
        LiteralHead(text, bytes);
        NoWordAt(s, p);
        ReadsAnywhere(text, bytes, s, p);
    }
  }

  lemma {:induction false} SlotProper(slot: Slot, room: nat)
    ensures ProperSlot(slot, room) <==> Gap(slot.before) && Proper(slot.form, room) && Gap(slot.after)
  {
  }

  lemma {:induction false} SlotsProper(slots: seq<Slot>, room: nat)
    requires slots != []
    ensures ProperSlots(slots, room) <==> ProperSlot(slots[0], room) && ProperSlots(slots[1..], room)
    ensures ProperSlots([], room)
    ensures Trees(slots) == [Tree(slots[0].form)] + Trees(slots[1..]) && Trees([]) == []
  {
  }

  lemma {:induction false} NoNumberByte()
    ensures !NumberByte(',') && !NumberByte(']') && !NumberByte('}')
  {
  }

  lemma {:induction false} Limit()
    ensures NESTING_LIMIT == 1000
  {
  }

  lemma {:induction false} EntriesProper(entries: seq<Entry>, room: nat)
    requires entries != []
    ensures ProperEntries(entries, room) <==> ProperEntry(entries[0], room) && ProperEntries(entries[1..], room)
    ensures ProperEntry(entries[0], room) <==>
              && Gap(entries[0].before) && IsLiteral(entries[0].key, entries[0].name) && Gap(entries[0].beforeColon)
              && ProperSlot(entries[0].slot, room)
    ensures ProperEntries([], room)
    ensures Members(entries) == [Member(entries[0].name, Tree(entries[0].slot.form))] + Members(entries[1..])
    ensures Members([]) == []
  {
  }

  /** parse_object's reading of a name and a value. */
  lemma {:induction false} MemberIsRead(s: string, p: nat, depth: nat, name: string, n: nat, v: Json, r: nat)
    requires Terminated(s) && p < |s| && depth <= NESTING_LIMIT
    requires ReadString(s, SkipBlanks(s, p)) == Some((name, n)) && s[SkipBlanks(s, n)] == ':'
    requires SkipBlanks(s, n) + 1 < |s| && ParseValue(s, SkipBlanks(s, SkipBlanks(s, n) + 1), depth) == Some((v, r))
    ensures ParseMember(s, p, depth) == Some((Member(name, v), r))
  {
    hide ParseValue, ReadString, SkipBlanks;
  }

  lemma {:induction false} LiteralReads(text: string, bytes: string, s: string, p: nat)
    requires IsLiteral(text, bytes) && At(s, p, text)
    ensures p < |s| && ReadString(s, p) == Some((bytes, p + |text|))
  {
    hide ReadString, Cut;
    ReadsAnywhere(text, bytes, s, p);
  }

  lemma {:induction false} SlotsLong(slots: seq<Slot>)
    ensures slots != [] ==> SlotsText(slots) != ""
  {
  }

  lemma {:induction false} EntriesLong(entries: seq<Entry>)
    ensures entries != [] ==> EntriesText(entries) != ""
  {
  }

  lemma {:induction false} ContainerParts(f: Form, room: nat, s: string, p: nat)
    requires (f.ArrayForm? || f.ObjectForm?) && Proper(f, room) && At(s, p, Text(f))
    ensures p + 1 < |s| && room > 0 && Gap(f.inside)
    ensures f.ArrayForm? ==> s[p] == '[' && Tree(f) == Array(Trees(f.slots)) && ProperSlots(f.slots, room - 1)
    ensures f.ObjectForm? ==> s[p] == '{' && Tree(f) == Object(Members(f.entries)) && ProperEntries(f.entries, room - 1)
    ensures f.ArrayForm? && f.slots != [] ==>
              At(s, p + 1, SlotsText(f.slots)) && |Text(f)| == 1 + |SlotsText(f.slots)|
    ensures f.ObjectForm? && f.entries != [] ==>
              At(s, p + 1, EntriesText(f.entries)) && |Text(f)| == 1 + |EntriesText(f.entries)|
    ensures (f.ArrayForm? && f.slots == []) || (f.ObjectForm? && f.entries == []) ==>
              var q := p + 1 + |f.inside|;
              At(s, p + 1, f.inside) && |Text(f)| == |f.inside| + 2 && q < |s|
              && s[q] == if f.ArrayForm? then ']' else '}'
  {
    hide Cut, SlotsText, EntriesText, ProperSlots, ProperEntries, Trees, Members;
    AtByte(s, p, Text(f), 0);
    AtByte(s, p, Text(f), |Text(f)| - 1);
    if f.ArrayForm? {
      AtConcat(s, p, "[", if f.slots == [] then f.inside + "]" else SlotsText(f.slots));
      AtConcat(s, p + 1, f.inside, "]");
      SlotsLong(f.slots);
    } else {
      AtConcat(s, p, "{", if f.entries == [] then f.inside + "}" else EntriesText(f.entries));
      AtConcat(s, p + 1, f.inside, "}");
      EntriesLong(f.entries);
    }
  }

  lemma {:induction false} NoTrees()
    ensures Trees([]) == [] && Members([]) == []
  {
  }

  /** A value between white space, in front of a comma or a closing bracket or brace. */
  lemma {:induction false} SlotIsRead(slot: Slot, s: string, p: nat, depth: nat) returns (r: nat)
    requires depth <= 1000 && ProperSlot(slot, 1000 - depth) && Terminated(s) && At(s, p, SlotText(slot))
    requires var c := p + |SlotText(slot)|; c < |s| && s[c] as int > 32 && !NumberByte(s[c])
    ensures p < |s| && s[SkipBlanks(s, p)] != ']' && s[SkipBlanks(s, p)] != '}'
    ensures ParseValue(s, SkipBlanks(s, p), depth) == Some((Tree(slot.form), r))
    ensures r < |s| && SkipBlanks(s, r) == p + |SlotText(slot)|
    decreases slot, 3
  {
    hide *;
    SlotProper(slot, 1000 - depth);
    FormHead(slot.form, 1000 - depth);
    var v;
    v, r := SlotParts(slot, s, p);
    AtByte(s, v, Text(slot.form), 0);
    GapIsSkipped(s, p, slot.before);
    GapIsSkipped(s, r, slot.after);
    GapEndsNumber(s, r, slot.after);
    FormIsRead(slot.form, s, v, depth);
  }

  lemma {:induction false} SlotsAreRead(slots: seq<Slot>, s: string, p: nat, depth: nat)
    requires slots != [] && depth <= 1000 && ProperSlots(slots, 1000 - depth) && Terminated(s)
    requires At(s, p, SlotsText(slots))
    ensures p < |s| && ParseItems(s, p, depth) == Some((Trees(slots), p + |SlotsText(slots)|))
    ensures s[SkipBlanks(s, p)] != ']'
    decreases slots, 0
  {
    hide *;
    Limit();
    SlotsProper(slots, 1000 - depth);
    NoNumberByte();
    var c := SlotsParts(slots, s, p);
    var r := SlotIsRead(slots[0], s, p, depth);
    if |slots| == 1 {
      assert slots[1..] == [];
      assert [Tree(slots[0].form)] + [] == [Tree(slots[0].form)];
      LastItem(s, p, depth, Tree(slots[0].form), r);
    } else {
      SlotsAreRead(slots[1..], s, c + 1, depth);
      NextItem(s, p, depth, Tree(slots[0].form), r, Trees(slots[1..]), p + |SlotsText(slots)|);
    }
  }

  lemma {:induction false} EntryIsRead(entry: Entry, s: string, p: nat, depth: nat) returns (r: nat)
    requires depth <= 1000 && ProperEntries([entry], 1000 - depth) && Terminated(s) && At(s, p, EntryText(entry))
    requires var c := p + |EntryText(entry)|; c < |s| && s[c] as int > 32 && !NumberByte(s[c])
    ensures p < |s| && s[SkipBlanks(s, p)] != '}'
    ensures ParseMember(s, p, depth) == Some((Member(entry.name, Tree(entry.slot.form)), r))
    ensures r < |s| && SkipBlanks(s, r) == p + |EntryText(entry)|
    decreases entry, 4
  {
    hide *;
    Limit();
    EntriesProper([entry], 1000 - depth);
    var k, n, c := EntryParts(entry, s, p);
    LiteralHead(entry.key, entry.name);
    AtByte(s, k, entry.key, 0);
    GapIsSkipped(s, p, entry.before);
    LiteralReads(entry.key, entry.name, s, k);
    GapIsSkipped(s, n, entry.beforeColon);
    r := SlotIsRead(entry.slot, s, c + 1, depth);
    MemberIsRead(s, p, depth, entry.name, n, Tree(entry.slot.form), r);
  }

  lemma {:induction false} EntriesAreRead(entries: seq<Entry>, s: string, p: nat, depth: nat)
    requires entries != [] && depth <= 1000 && ProperEntries(entries, 1000 - depth) && Terminated(s)
    requires At(s, p, EntriesText(entries))
    ensures p < |s| && ParseMembers(s, p, depth) == Some((Members(entries), p + |EntriesText(entries)|))
    ensures s[SkipBlanks(s, p)] != '}'
    decreases entries, 0
  {
    hide *;
    EntriesProper(entries, 1000 - depth);
    Limit();
    EntriesProper([entries[0]], 1000 - depth);
    assert [entries[0]][1..] == [];
    NoNumberByte();
    var c := EntriesParts(entries, s, p);
    var r := EntryIsRead(entries[0], s, p, depth);
    var m := Member(entries[0].name, Tree(entries[0].slot.form));
    if |entries| == 1 {
      assert entries[1..] == [];
      assert [m] + [] == [m];
      LastMember(s, p, depth, m, r);
    } else {
      EntriesAreRead(entries[1..], s, c + 1, depth);
      NextMember(s, p, depth, m, r, Members(entries[1..]), p + |EntriesText(entries)|);
    }
  }

  /** Wherever the text of a form stands, parse_value yields its tree and stops behind it. */
  lemma {:induction false} FormIsRead(f: Form, s: string, p: nat, depth: nat)
    requires depth <= 1000 && Proper(f, 1000 - depth) && Terminated(s)
    requires At(s, p, Text(f)) && p + |Text(f)| < |s| && !NumberByte(s[p + |Text(f)|])
    ensures p < |s| && ParseValue(s, p, depth) == Some((Tree(f), p + |Text(f)|))
    decreases f, 2
  {
    hide *;
    Limit();
    if f.ArrayForm? {
      ContainerParts(f, 1000 - depth, s, p);
      ArrayUnfolds(s, p, depth);
      if f.slots == [] {
        GapIsSkipped(s, p + 1, f.inside);
        NoTrees();
      } else {
        SlotsAreRead(f.slots, s, p + 1, depth + 1);
        StartsBlank(s, p + 1, depth + 1);
      }
    } else if f.ObjectForm? {
      ContainerParts(f, 1000 - depth, s, p);
      ObjectUnfolds(s, p, depth);
      if f.entries == [] {
        GapIsSkipped(s, p + 1, f.inside);
        NoTrees();
      } else {
        EntriesAreRead(f.entries, s, p + 1, depth + 1);
        StartsBlank(s, p + 1, depth + 1);
      }
    } else {
      LeafIsRead(f, s, p, depth);
    }
  }

  // ---------------------------------------------------------------- nothing else is read

  /** The terminator occurs at the end only. */
  predicate Sole(s: string) {
    Terminated(s) && forall i :: 0 <= i < |s| - 1 ==> s[i] != '\0'
  }

  /** What was skipped is white space. */
  lemma {:induction false} GapFound(s: string, p: nat)
    requires Sole(s) && p < |s|
    ensures var q := SkipBlanks(s, p); p <= q && Gap(s[p..q]) && At(s, p, s[p..q])
    decreases |s| - p
  {
    if Blank(s[p]) && p + 1 < |s| {
      GapFound(s, p + 1);
      var q := SkipBlanks(s, p + 1);
      assert s[p..q] == [s[p]] + s[p + 1..q];
    } else {
      assert s[p..p] == "";
    }
  }

  lemma {:induction false} CutIsAt(s: string, p: nat, q: nat)
    requires p <= q <= |s|
    ensures At(s, p, s[p..q])
  {
  }

  lemma {:induction false} NumberFound(s: string, p: nat)
    requires Terminated(s) && p < |s| && NumberStart(s[p]) && ParseNumber(s, p).Some?
    ensures var (v, e) := ParseNumber(s, p).value;
            v.Number? && IsNumber(v.digits) && At(s, p, v.digits) && e == p + |v.digits|
  {
    hide Numeral, NumberRun, NumeralPrefix, At, Cut, Figures;
    var run := s[p..p + NumberRun(s, p, NUMBER_BUFFER)];
    var k := NumeralPrefix(run, |run|);
    var digits := run[..k];
    assert digits == s[p..p + k] && digits[0] == s[p];
    CutIsAt(s, p, p + k);
    var n := NumeralHasParts(digits);
  }

  lemma {:induction false} LiteralFound(s: string, p: nat)
    requires p < |s| && ReadString(s, p).Some?
    ensures var (bytes, r) := ReadString(s, p).value; IsLiteral(s[p..r], bytes) && At(s, p, s[p..r])
  {
    hide Unescape, ClosingQuote, Cut;
    ReadsItself(s, p);
  }

  lemma {:induction false} LeafFound(s: string, p: nat, depth: nat) returns (f: Form)
    requires Terminated(s) && p < |s| && depth <= 1000 && s[p] != '[' && s[p] != '{' && ParseValue(s, p, depth).Some?
    ensures Proper(f, 1000 - depth) && At(s, p, Text(f))
    ensures ParseValue(s, p, depth) == Some((Tree(f), p + |Text(f)|))
  {
    hide Cut, ParseNumber, ReadString, ParseItems, ParseMembers, IsNumber, IsLiteral, NumberStart, SkipBlanks;
    var (v, e) := ParseValue(s, p, depth).value;
    if At(s, p, "null") {
      f := NullForm;
    } else if At(s, p, "false") {
      f := FalseForm;
    } else if At(s, p, "true") {
      f := TrueForm;
    } else if s[p] == '\"' {
      LiteralFound(s, p);
      f := StringForm(s[p..e], v.bytes);
    } else {
      NumberFound(s, p);
      f := NumberForm(v.digits);
    }
  }

  lemma {:induction false} ReadsVisible(s: string, p: nat, depth: nat)
    requires Sole(s) && p < |s| && depth <= NESTING_LIMIT && ParseValue(s, p, depth).Some?
    ensures s[p] != '\0'
  {
    hide ParseValue;
  }

  lemma {:induction false} SlotAt(slot: Slot, s: string, p: nat, v: nat, r: nat)
    requires At(s, p, slot.before) && v == p + |slot.before| && At(s, v, Text(slot.form))
    requires r == v + |Text(slot.form)| && At(s, r, slot.after)
    ensures At(s, p, SlotText(slot)) && p + |SlotText(slot)| == r + |slot.after|
  {
    hide Cut, Text;
    AtConcat(s, p, slot.before, Text(slot.form));
    AtConcat(s, p, slot.before + Text(slot.form), slot.after);
  }

  lemma {:induction false} SoleEnds(s: string)
    ensures Sole(s) ==> Terminated(s)
  {
  }

  /** What parse_array's loop has read before it goes on. */
  lemma {:induction false} ItemsUnfold(s: string, p: nat, depth: nat)
    requires Terminated(s) && p < |s| && depth <= NESTING_LIMIT && ParseItems(s, p, depth).Some?
    ensures ParseValue(s, SkipBlanks(s, p), depth).Some?
    ensures var (v, r) := ParseValue(s, SkipBlanks(s, p), depth).value;
            var q := SkipBlanks(s, r);
            && p <= q && (s[q] == ',' || s[q] == ']')
            && (s[q] == ',' ==>
                  q + 1 < |s| && ParseItems(s, q + 1, depth).Some?
                  && ParseItems(s, p, depth)
                     == Some(([v] + ParseItems(s, q + 1, depth).value.0, ParseItems(s, q + 1, depth).value.1)))
            && (s[q] == ']' ==> ParseItems(s, p, depth) == Some(([v], q + 1)))
  {
    hide ParseValue, SkipBlanks;
  }

  lemma {:induction false} ByteAt(s: string, p: nat, b: string)
    requires p < |s| && b == [s[p]]
    ensures At(s, p, b)
  {
    assert s[p..p + 1] == [s[p]];
  }

  lemma {:induction false} SkipsBack(s: string)
    requires Terminated(s)
    ensures SkipBlanks(s, |s|) == |s| - 1
  {
  }

  lemma {:induction false} MemberUnfolds(s: string, p: nat, depth: nat)
    requires Sole(s) && p < |s| && depth <= NESTING_LIMIT && ParseMember(s, p, depth).Some?
    ensures ReadString(s, SkipBlanks(s, p)).Some?
    ensures var (name, n) := ReadString(s, SkipBlanks(s, p)).value;
            var c := SkipBlanks(s, n);
            && p < n < |s| && n <= c && c + 1 < |s| && s[c] == ':'
            && ParseValue(s, SkipBlanks(s, c + 1), depth).Some?
            && ParseMember(s, p, depth)
               == Some((Member(name, ParseValue(s, SkipBlanks(s, c + 1), depth).value.0),
                        ParseValue(s, SkipBlanks(s, c + 1), depth).value.1))
  {
    hide ParseValue, ReadString, SkipBlanks;
    var (name, n) := ReadString(s, SkipBlanks(s, p)).value;
    if n == |s| {
      assert SkipBlanks(s, n) == |s| - 1 by { SkipsBack(s); }
    }
  }

  lemma {:induction false} ProperNothing(room: nat)
    ensures ProperEntries([], room) && ProperSlots([], room)
  {
  }

  lemma {:induction false} EntryAt(entry: Entry, s: string, p: nat, k: nat, n: nat, c: nat)
    requires At(s, p, entry.before) && k == p + |entry.before| && At(s, k, entry.key) && n == k + |entry.key|
    requires At(s, n, entry.beforeColon) && c == n + |entry.beforeColon| && At(s, c, ":")
    requires At(s, c + 1, SlotText(entry.slot))
    ensures At(s, p, EntryText(entry)) && p + |EntryText(entry)| == c + 1 + |SlotText(entry.slot)|
  {
    hide Cut, SlotText;
    AtConcat(s, p, entry.before, entry.key);
    AtConcat(s, p, entry.before + entry.key, entry.beforeColon);
    AtConcat(s, p, entry.before + entry.key + entry.beforeColon, ":");
    AtConcat(s, p, entry.before + entry.key + entry.beforeColon + ":", SlotText(entry.slot));
  }

  lemma {:induction false} MembersUnfold(s: string, p: nat, depth: nat)
    requires Terminated(s) && p < |s| && depth <= NESTING_LIMIT && ParseMembers(s, p, depth).Some?
    ensures ParseMember(s, p, depth).Some?
    ensures var (m, r) := ParseMember(s, p, depth).value;
            var q := SkipBlanks(s, r);
            && p <= q && (s[q] == ',' || s[q] == '}')
            && (s[q] == ',' ==>
                  q + 1 < |s| && ParseMembers(s, q + 1, depth).Some?
                  && ParseMembers(s, p, depth)
                     == Some(([m] + ParseMembers(s, q + 1, depth).value.0, ParseMembers(s, q + 1, depth).value.1)))
            && (s[q] == '}' ==> ParseMembers(s, p, depth) == Some(([m], q + 1)))
  {
    hide ParseMember, SkipBlanks;
  }

  /** A container whose pieces stand where they should. */
  lemma {:induction false} ArrayAt(f: Form, s: string, p: nat, room: nat)
    requires f.ArrayForm? && p < |s| && s[p] == '[' && room > 0 && Gap(f.inside) && ProperSlots(f.slots, room - 1)
    requires if f.slots == [] then At(s, p + 1, f.inside + "]") else At(s, p + 1, SlotsText(f.slots))
    ensures Proper(f, room) && At(s, p, Text(f)) && Tree(f) == Array(Trees(f.slots))
    ensures |Text(f)| == 1 + if f.slots == [] then |f.inside| + 1 else |SlotsText(f.slots)|
  {
    hide Cut, SlotsText, ProperSlots, Trees;
    ByteAt(s, p, "[");
    AtConcat(s, p, "[", if f.slots == [] then f.inside + "]" else SlotsText(f.slots));
  }

  lemma {:induction false} ObjectAt(f: Form, s: string, p: nat, room: nat)
    requires f.ObjectForm? && p < |s| && s[p] == '{' && room > 0 && Gap(f.inside) && ProperEntries(f.entries, room - 1)
    requires if f.entries == [] then At(s, p + 1, f.inside + "}") else At(s, p + 1, EntriesText(f.entries))
    ensures Proper(f, room) && At(s, p, Text(f)) && Tree(f) == Object(Members(f.entries))
    ensures |Text(f)| == 1 + if f.entries == [] then |f.inside| + 1 else |EntriesText(f.entries)|
  {
    hide Cut, EntriesText, ProperEntries, Members;
    ByteAt(s, p, "{");
    AtConcat(s, p, "{", if f.entries == [] then f.inside + "}" else EntriesText(f.entries));
  }

  lemma {:induction false} NoGap()
    ensures Gap("")
  {
  }

  /** A value between white space. */
  lemma {:induction false} SlotFound(s: string, p: nat, depth: nat) returns (slot: Slot)
    requires Sole(s) && p < |s| && depth <= 1000 && ParseValue(s, SkipBlanks(s, p), depth).Some?
    ensures var (v, r) := ParseValue(s, SkipBlanks(s, p), depth).value;
            && ProperSlot(slot, 1000 - depth) && At(s, p, SlotText(slot)) && Tree(slot.form) == v
            && SkipBlanks(s, r) == p + |SlotText(slot)| == r + |slot.after|
    decreases |s| - p, 1
  {
    hide *;
    SoleEnds(s);
    var q := SkipBlanks(s, p);
    var f := FormFound(s, q, depth);
    var r := q + |Text(f)|;
    GapFound(s, p);
    GapFound(s, r);
    slot := Slot(s[p..q], f, s[r..SkipBlanks(s, r)]);
    SlotProper(slot, 1000 - depth);
    SlotAt(slot, s, p, q, r);
  }

  lemma {:induction false} SlotsFound(s: string, p: nat, depth: nat) returns (slots: seq<Slot>)
    requires Sole(s) && p < |s| && depth <= 1000 && ParseItems(s, p, depth).Some?
    ensures slots != [] && ProperSlots(slots, 1000 - depth) && At(s, p, SlotsText(slots))
    ensures ParseItems(s, p, depth) == Some((Trees(slots), p + |SlotsText(slots)|))
    decreases |s| - p, 2
  {
    hide *;
    Limit();
    SoleEnds(s);
    ItemsUnfold(s, p, depth);
    var slot := SlotFound(s, p, depth);
    var q := p + |SlotText(slot)|;
    NoTrees();
    if s[q] == ',' {
      var rest := SlotsFound(s, q + 1, depth);
      slots := [slot] + rest;
      assert slots[1..] == rest;
      ByteAt(s, q, ",");
      AtConcat(s, q, ",", SlotsText(rest));
      AtConcat(s, p, SlotText(slot), "," + SlotsText(rest));
    } else {
      slots := [slot];
      assert slots[1..] == [];
      assert [Tree(slot.form)] + [] == [Tree(slot.form)];
      ByteAt(s, q, "]");
      AtConcat(s, p, SlotText(slot), "]");
    }
    SlotsProper(slots, 1000 - depth);
    SlotsUnfold(slots);
  }

  /** A name, a colon and a value. */
  lemma {:induction false} EntryFound(s: string, p: nat, depth: nat) returns (entry: Entry)
    requires Sole(s) && p < |s| && depth <= 1000 && ParseMember(s, p, depth).Some?
    ensures var (m, r) := ParseMember(s, p, depth).value;
            && ProperEntries([entry], 1000 - depth) && At(s, p, EntryText(entry))
            && m == Member(entry.name, Tree(entry.slot.form)) && SkipBlanks(s, r) == p + |EntryText(entry)|
    decreases |s| - p, 2
  {
    hide *;
    Limit();
    SoleEnds(s);
    MemberUnfolds(s, p, depth);
    var k := SkipBlanks(s, p);
    var (name, n) := ReadString(s, k).value;
    var c := SkipBlanks(s, n);
    GapFound(s, p);
    LiteralFound(s, k);
    GapFound(s, n);
    var slot := SlotFound(s, c + 1, depth);
    entry := Entry(s[p..k], s[k..n], name, s[n..c], slot);
    EntriesProper([entry], 1000 - depth);
    ProperNothing(1000 - depth);
    assert [entry][1..] == [];
    ByteAt(s, c, ":");
    EntryAt(entry, s, p, k, n, c);
  }

  lemma {:induction false} EntriesFound(s: string, p: nat, depth: nat) returns (entries: seq<Entry>)
    requires Sole(s) && p < |s| && depth <= 1000 && ParseMembers(s, p, depth).Some?
    ensures entries != [] && ProperEntries(entries, 1000 - depth) && At(s, p, EntriesText(entries))
    ensures ParseMembers(s, p, depth) == Some((Members(entries), p + |EntriesText(entries)|))
    decreases |s| - p, 3
  {
    hide *;
    Limit();
    SoleEnds(s);
    MembersUnfold(s, p, depth);
    var entry := EntryFound(s, p, depth);
    var q := p + |EntryText(entry)|;
    EntriesProper([entry], 1000 - depth);
    NoTrees();
    if s[q] == ',' {
      var rest := EntriesFound(s, q + 1, depth);
      entries := [entry] + rest;
      assert entries[1..] == rest;
      ByteAt(s, q, ",");
      AtConcat(s, q, ",", EntriesText(rest));
      AtConcat(s, p, EntryText(entry), "," + EntriesText(rest));
    } else {
      entries := [entry];
      assert entries[1..] == [];
      assert [Member(entry.name, Tree(entry.slot.form))] + [] == [Member(entry.name, Tree(entry.slot.form))];
      ByteAt(s, q, "}");
      AtConcat(s, p, EntryText(entry), "}");
    }
    EntriesProper(entries, 1000 - depth);
    EntriesUnfold(entries);
  }

  /** Whatever parse_value accepts is the text of a form. */
  lemma {:induction false} FormFound(s: string, p: nat, depth: nat) returns (f: Form)
    requires Sole(s) && p < |s| && depth <= 1000 && ParseValue(s, p, depth).Some?
    ensures Proper(f, 1000 - depth) && At(s, p, Text(f))
    ensures ParseValue(s, p, depth) == Some((Tree(f), p + |Text(f)|))
    decreases |s| - p, 0
  {
    hide *;
    Limit();
    SoleEnds(s);
    NoTrees();
    ProperNothing(if depth < 1000 then 999 - depth else 0);
    if s[p] == '[' {
      ArrayUnfolds(s, p, depth);
      var q := SkipBlanks(s, p + 1);
      GapFound(s, p + 1);
      if s[q] == ']' {
        ByteAt(s, q, "]");
        AtConcat(s, p + 1, s[p + 1..q], "]");
        f := ArrayForm(s[p + 1..q], []);
      } else {
        StartsBlank(s, p + 1, depth + 1);
        var slots := SlotsFound(s, p + 1, depth + 1);
        NoGap();
        f := ArrayForm("", slots);
      }
      ArrayAt(f, s, p, 1000 - depth);
    } else if s[p] == '{' {
      ObjectUnfolds(s, p, depth);
      var q := SkipBlanks(s, p + 1);
      GapFound(s, p + 1);
      if s[q] == '}' {
        ByteAt(s, q, "}");
        AtConcat(s, p + 1, s[p + 1..q], "}");
        f := ObjectForm(s[p + 1..q], []);
      } else {
        StartsBlank(s, p + 1, depth + 1);
        var entries := EntriesFound(s, p + 1, depth + 1);
        NoGap();
        f := ObjectForm("", entries);
      }
      ObjectAt(f, s, p, 1000 - depth);
    } else {
      f := LeafFound(s, p, depth);
    }
  }

  // ---------------------------------------------------------------- documents

  lemma {:induction false} SlotLong(slot: Slot, room: nat)
    requires ProperSlot(slot, room)
    ensures SlotText(slot) != "" && SlotText(slot)[0] as int < 128
  {
    hide Text, Proper;
    FormHead(slot.form, room);
  }

  lemma {:induction false} MarkSkipped(d: Document, s: string)
    requires d.Proper() && Terminated(s) && At(s, 0, d.Text()) && |d.Text()| < |s|
    ensures SkipMark(s) == |d.Front()| && At(s, |d.Front()|, SlotText(d.slot))
  {
    hide Cut, SlotText;
    SlotLong(d.slot, 1000);
    AtConcat(s, 0, d.Front(), SlotText(d.slot));
    if d.mark {
      AtByte(s, 0, d.Front(), 0);
      AtByte(s, 0, d.Front(), 1);
      AtByte(s, 0, d.Front(), 2);
    } else {
      AtByte(s, 0, SlotText(d.slot), 0);
    }
  }

  /** White space up to the terminator is skipped onto it. */
  lemma {:induction false} GapToEnd(s: string, p: nat)
    requires Terminated(s) && p < |s| && forall i :: p <= i < |s| - 1 ==> Blank(s[i])
    ensures SkipBlanks(s, p) == |s| - 1
    decreases |s| - p
  {
    if p + 1 < |s| {
      GapToEnd(s, p + 1);
    }
  }

  lemma {:induction false} GapBytes(s: string, p: nat, gap: string)
    requires At(s, p, gap) && Gap(gap)
    ensures p + |gap| <= |s| && forall i :: p <= i < p + |gap| ==> Blank(s[i])
  {
    forall i | p <= i < p + |gap| ensures Blank(s[i]) {
      AtByte(s, p, gap, i - p);
    }
  }

  lemma {:induction false} DocumentParts(d: Document)
    ensures d.Proper() <==> ProperSlot(d.slot, 1000)
    ensures d.Text() == d.Front() + SlotText(d.slot)
  {
  }

  /** Where a document ends in the text, and its value before that. */
  lemma {:induction false} ValueIsRead(d: Document, s: string) returns (r: nat)
    requires d.Proper() && Terminated(s) && At(s, 0, d.Text()) && |d.Text()| < |s|
    requires !NumberByte(s[|d.Text()|])
    ensures ParseValue(s, SkipBlanks(s, SkipMark(s)), 0) == Some((Tree(d.slot.form), r)) && r < |s|
    ensures r + |d.slot.after| == |d.Text()| && At(s, r, d.slot.after)
  {
    hide *;
    DocumentParts(d);
    MarkSkipped(d, s);
    SlotProper(d.slot, 1000);
    FormHead(d.slot.form, 1000);
    var v;
    v, r := SlotParts(d.slot, s, |d.Front()|);
    AtByte(s, v, Text(d.slot.form), 0);
    GapIsSkipped(s, |d.Front()|, d.slot.before);
    GapEndsNumber(s, r, d.slot.after);
    FormIsRead(d.slot.form, s, v, 0);
  }

  lemma {:induction false} NoNulNumber()
    ensures !NumberByte('\0')
  {
  }

  lemma {:induction false} FrontAt(s: string, t: string)
    requires |t| <= |s| && s[..|t|] == t
    ensures At(s, 0, t)
  {
    assert s[0..0 + |t|] == t;
  }

  lemma {:induction false} GapToEndOf(d: Document, s: string, r: nat)
    requires d.Proper() && Terminated(s) && At(s, r, d.slot.after) && r + |d.slot.after| == |s| - 1
    ensures SkipBlanks(s, r) == |s| - 1
  {
    hide Cut;
    SlotProper(d.slot, 1000);
    GapBytes(s, r, d.slot.after);
    GapToEnd(s, r);
  }

  /** cJSON_ParseWithOpts reads every document, and as the tree it means. Whatever follows it must not continue it. */
  lemma {:induction false} DocumentIsRead(d: Document, rest: string)
    requires d.Proper() && (rest != "" ==> !NumberByte(rest[0]))
    ensures var s := Content(d.Text() + rest);
            ParseDocument(s, false) == Some((Tree(d.slot.form), |d.Text()| - |d.slot.after|))
    ensures rest == "" ==> ParseDocument(Content(d.Text()), true) == Some((Tree(d.slot.form), |d.Text()|))
  {
    hide Cut, ParseValue, NumberByte, SlotText, ProperSlot, SkipMark;
    assert !NumberByte('\0') by { NoNulNumber(); }
    var s := Content(d.Text() + rest);
    assert s[..|d.Text()|] == d.Text();
    FrontAt(s, d.Text());
    var r := ValueIsRead(d, s);
    if rest == "" {
      assert d.Text() + "" == d.Text();
      GapToEndOf(d, s, r);
    }
  }

  lemma {:induction false} AtPrefix(s: string, t: string)
    requires At(s, 0, t)
    ensures |t| <= |s| && s[..|t|] == t
  {
    assert s[0..0 + |t|] == s[..|t|];
  }

  lemma {:induction false} AfterFound(s: string, p: nat, slot: Slot, v: Json, r: nat)
    requires Sole(s) && p < |s| && ParseValue(s, SkipBlanks(s, p), 0) == Some((v, r))
    requires SkipBlanks(s, r) == p + |SlotText(slot)|
    ensures p + |SlotText(slot)| < |s|
    ensures s[SkipBlanks(s, r)] == '\0' ==> p + |SlotText(slot)| == |s| - 1
  {
    hide ParseValue, SkipBlanks;
  }

  lemma {:induction false} FrontFound(s: string) returns (mark: bool)
    requires Terminated(s)
    ensures var d := Document(mark, Slot("", NullForm, ""));
            SkipMark(s) == |d.Front()| && At(s, 0, d.Front())
  {
    var p := SkipMark(s);
    mark := p == 3;
    assert s[0..0 + p] == if mark then [0xEF as char, 0xBB as char, 0xBF as char] else "";
  }

  /** A slot behind the mark is a document at the beginning of the text. */
  lemma {:induction false} DocumentAt(d: Document, text: string)
    requires At(Content(text), 0, d.Front()) && At(Content(text), |d.Front()|, SlotText(d.slot))
    requires |d.Front()| + |SlotText(d.slot)| <= |text|
    ensures |d.Text()| == |d.Front()| + |SlotText(d.slot)| && d.Text() <= text
  {
    hide Cut, SlotText;
    AtConcat(Content(text), 0, d.Front(), SlotText(d.slot));
    AtPrefix(Content(text), d.Text());
    assert Content(text)[..|d.Text()|] == text[..|d.Text()|];
  }

  lemma {:induction false} FrontIs(d: Document, e: Document)
    requires d.mark == e.mark
    ensures d.Front() == e.Front()
  {
  }

  /** What cJSON_ParseWithOpts returns, given where the value and the white space behind it end. */
  lemma {:induction false} DocumentEnds(s: string, requireTerminator: bool)
    requires Terminated(s) && ParseDocument(s, requireTerminator).Some?
    ensures ParseValue(s, SkipBlanks(s, SkipMark(s)), 0).Some?
    ensures var (v, r) := ParseValue(s, SkipBlanks(s, SkipMark(s)), 0).value;
            && ParseDocument(s, requireTerminator) == Some((v, if requireTerminator then SkipBlanks(s, r) else r))
            && (requireTerminator ==> s[SkipBlanks(s, r)] == '\0')
  {
    hide ParseValue, SkipBlanks, SkipMark;
  }

  lemma {:induction false} ContentSole(text: string)
    requires NulFree(text)
    ensures Sole(Content(text)) && |Content(text)| == |text| + 1
  {
  }

  /** And nothing else: what it accepts starts with a document, and is one if the terminator is asked for. */
  lemma {:induction false} DocumentFound(text: string, requireTerminator: bool) returns (d: Document)
    requires NulFree(text) && ParseDocument(Content(text), requireTerminator).Some?
    ensures d.Proper() && d.Text() <= text && (requireTerminator ==> d.Text() == text)
    ensures ParseDocument(Content(text), requireTerminator)
            == Some((Tree(d.slot.form), |d.Text()| - if requireTerminator then 0 else |d.slot.after|))
  {
    hide *;
    Limit();
    var s := Content(text);
    ContentSole(text);
    SoleEnds(s);
    DocumentEnds(s, requireTerminator);
    var mark := FrontFound(s);
    var p := SkipMark(s);
    var slot := SlotFound(s, p, 0);
    var (v, r) := ParseValue(s, SkipBlanks(s, p), 0).value;
    d := Document(mark, slot);
    FrontIs(d, Document(mark, Slot("", NullForm, "")));
    AfterFound(s, p, slot, v, r);
    DocumentAt(d, text);
    DocumentParts(d);
  }

  /** The texts that are accepted up to their end are the documents. */
  lemma {:induction false} AcceptsDocuments(text: string)
    requires NulFree(text)
    ensures ParseDocument(Content(text), true).Some? <==> exists d: Document :: d.Proper() && d.Text() == text
  {
    hide *;
    if ParseDocument(Content(text), true).Some? {
      var d := DocumentFound(text, true);
    }
    if exists d: Document :: d.Proper() && d.Text() == text {
      var d: Document :| d.Proper() && d.Text() == text;
      DocumentIsRead(d, "");
    }
  }
}
