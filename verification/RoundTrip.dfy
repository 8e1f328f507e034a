/** The parser reads back every printed tree: parse_value is the inverse of print_value. */
module RoundTrip {
  import opened Prelude
  import opened StringCodec
  import opened Json
  import opened JsonReader

  // ---------------------------------------------------------------- numbers

  lemma {:induction false} RunOfBytes(s: string, p: nat, n: nat, room: nat)
    requires p + n < |s| && n <= room
    requires forall i :: p <= i < p + n ==> NumberByte(s[i])
    requires !NumberByte(s[p + n])
    ensures NumberRun(s, p, room) == n
    decreases n
  {
    if n > 0 {
      RunOfBytes(s, p + 1, n - 1, room - 1);
    }
  }

  lemma {:induction false} NumberBytesAt(t: string, s: string, p: nat)
    requires At(s, p, t) && forall i :: 0 <= i < |t| ==> NumberByte(t[i])
    ensures forall i :: p <= i < p + |t| ==> NumberByte(s[i])
  {
    forall i | p <= i < p + |t| ensures NumberByte(s[i]) {
      AtByte(s, p, t, i - p);
    }
  }

  /** A numeral that fits the buffer of parse_number, in front of a byte that cannot continue it. */
  lemma {:induction false} NumeralAt(t: string, s: string, p: nat)
    requires 0 < |t| <= NUMBER_BUFFER && Numeral(t) && (forall i :: 0 <= i < |t| ==> NumberByte(t[i])) && Terminated(s)
    requires At(s, p, t) && p + |t| < |s| && !NumberByte(s[p + |t|])
    ensures ParseNumber(s, p) == Some((Number(t), p + |t|))
  {
    hide Numeral, NumberRun;
    NumberBytesAt(t, s, p);
    RunOfBytes(s, p, |t|, NUMBER_BUFFER);
    assert t[..|t|] == t;
  }

  lemma {:induction false} NumberReads(t: string, s: string, p: nat)
    requires PrintedNumber(t) && Terminated(s)
    requires At(s, p, t) && p + |t| < |s| && !NumberByte(s[p + |t|])
    ensures ParseNumber(s, p) == Some((Number(t), p + |t|))
  {
    hide Numeral, NumberRun;
    NumeralAt(t, s, p);
  }

  // ---------------------------------------------------------------- blanks

  lemma {:induction false} SkipsTo(s: string, p: nat, q: nat)
    requires Terminated(s) && p <= q < |s|
    requires forall i :: p <= i < q ==> Blank(s[i])
    requires !Blank(s[q])
    ensures SkipBlanks(s, p) == q
    decreases q - p
  {
    if p < q {
      SkipsTo(s, p + 1, q);
    }
  }

  /** Nothing to skip, or one blank. */
  lemma {:induction false} SkipsOne(s: string, p: nat, q: nat)
    requires Terminated(s) && q < |s| && (q == p || (q == p + 1 && Blank(s[p]))) && !Blank(s[q])
    ensures SkipBlanks(s, p) == q
  {
  }

  predicate AllBlank(t: string) { forall i :: 0 <= i < |t| ==> Blank(t[i]) }

  /** Blanks followed by a visible byte are skipped exactly. */
  lemma {:induction false} SkipsText(s: string, p: nat, a: string, b: string)
    requires Terminated(s) && At(s, p, a) && At(s, p + |a|, b)
    requires AllBlank(a) && b != [] && !Blank(b[0])
    ensures SkipBlanks(s, p) == p + |a| < |s| && s[p + |a|] == b[0]
  {
    forall i | p <= i < p + |a| ensures Blank(s[i]) {
      AtByte(s, p, a, i - p);
    }
    AtByte(s, p + |a|, b, 0);
    SkipsTo(s, p, p + |a|);
  }

  // ---------------------------------------------------------------- the pieces of a printed text

  function Indent(format: bool, depth: nat): (r: string)
    ensures AllBlank(r)
  {
    if format then Tabs(depth) else ""
  }

  function Colon(format: bool): (r: string)
    ensures 1 <= |r| <= 2 && r[0] == ':' && (|r| == 2 ==> Blank(r[1]))
  {
    if format then ":\t" else ":"
  }

  lemma {:induction false} RenderHead(v: Json, format: bool, depth: nat)
    requires Printable(v) && RawFree(v)
    ensures Render(v, format, depth) != []
    ensures var c := Render(v, format, depth)[0]; !Blank(c) && c != ']' && c != '}' && c as int < 0x80
  {
    if v.Object? {
      assert Render(v, format, depth)[0] == '{';
    }
  }

  lemma {:induction false} FitParts(items: seq<Json>, members: seq<Member>, room: nat)
    ensures Fits(Array(items), room) ==> room > 0 && FitItems(items, room - 1)
    ensures items != [] && FitItems(items, room) ==> Fits(items[0], room) && FitItems(items[1..], room)
    ensures Fits(Object(members), room) ==> room > 0 && FitMembers(members, room - 1)
    ensures members != [] && FitMembers(members, room) ==>
              NulFree(members[0].key) && Fits(members[0].value, room) && FitMembers(members[1..], room)
  {
  }

  lemma {:induction false} ItemsHead(items: seq<Json>, format: bool, depth: nat)
    requires items != [] && Printable(items[0]) && RawFree(items[0])
    ensures RenderItems(items, format, depth) != []
    ensures var c := RenderItems(items, format, depth)[0]; !Blank(c) && c != ']'
  {
    RenderHead(items[0], format, depth);
  }

  lemma {:induction false} ArrayParts(items: seq<Json>, format: bool, indent: nat, s: string, p: nat) returns (e: nat)
    requires Fits(Array(items), NESTING_LIMIT)
    requires At(s, p, Render(Array(items), format, indent))
    ensures p + 1 <= e < |s| && s[p] == '[' && s[e] == ']' && p + |Render(Array(items), format, indent)| == e + 1
    ensures At(s, p + 1, RenderItems(items, format, indent + 1))
            && e == p + 1 + |RenderItems(items, format, indent + 1)|
    ensures items == [] ==> e == p + 1
    ensures items != [] ==> !Blank(s[p + 1]) && s[p + 1] != ']'
  {
    FitsMeans(Array(items), NESTING_LIMIT);
    var body := RenderItems(items, format, indent + 1);
    e := p + 1 + |body|;
    AtConcat(s, p, "[" + body, "]");
    AtConcat(s, p, "[", body);
    AtByte(s, p, "[", 0);
    AtByte(s, e, "]", 0);
    if items != [] {
      ItemsHead(items, format, indent + 1);
      AtByte(s, p + 1, body, 0);
    }
  }

  lemma {:induction false} Punctuation()
    ensures !Blank(',') && !Blank(':') && !Blank(']') && !Blank('\"') && !NumberByte(',') && !NumberByte(']')
  {
  }

  /** The first item up to `r`, the separator, and the printed rest from `q` on. */
  lemma {:induction false} ItemParts(items: seq<Json>, format: bool, indent: nat, s: string, p: nat)
    returns (r: nat, q: nat)
    requires |items| > 1 && FitItems(items, NESTING_LIMIT) && Terminated(s)
    requires At(s, p, RenderItems(items, format, indent))
    ensures At(s, p, Render(items[0], format, indent)) && r == p + |Render(items[0], format, indent)|
    ensures r + 1 < |s| && s[r] == ',' && SkipBlanks(s, r) == r && SkipBlanks(s, r + 1) == q
    ensures At(s, q, RenderItems(items[1..], format, indent))
    ensures p + |RenderItems(items, format, indent)| == q + |RenderItems(items[1..], format, indent)|
  {
    FitItemsMeans(items, NESTING_LIMIT);
    ItemsHead(items[1..], format, indent);
    var t, sep := Render(items[0], format, indent), ItemSeparator(format);
    var rest := RenderItems(items[1..], format, indent);
    assert RenderItems(items, format, indent) == t + sep + rest;
    assert 1 <= |sep| <= 2 && sep[0] == ',' && (|sep| == 2 ==> Blank(sep[1]));
    hide *;
    AtConcat(s, p, t + sep, rest);
    AtConcat(s, p, t, sep);
    r := p + |t|;
    q := r + |sep|;
    AtByte(s, r, sep, 0);
    AtByte(s, r, sep, |sep| - 1);
    AtByte(s, q, rest, 0);
    SkipsOne(s, r + 1, q);
    Punctuation();
    SkipsOne(s, r, r);
  }

  /** The key, the colon at `c`, the value at `v`. */
  lemma {:induction false} HeadParts(key: string, format: bool, indent: nat, s: string, p: nat)
    returns (k: nat, c: nat, v: nat)
    requires At(s, p, MemberHead(key, format, indent))
    ensures At(s, p, Indent(format, indent)) && k == p + |Indent(format, indent)|
    ensures At(s, k, Quote(key)) && c == k + |Quote(key)|
    ensures At(s, c, Colon(format)) && v == c + |Colon(format)|
    ensures v == p + |MemberHead(key, format, indent)|
  {
    AtConcat(s, p, Indent(format, indent) + Quote(key), Colon(format));
    AtConcat(s, p, Indent(format, indent), Quote(key));
    k := p + |Indent(format, indent)|;
    c := k + |Quote(key)|;
    v := c + |Colon(format)|;
  }

  lemma {:induction false} MembersText(members: seq<Member>, format: bool, indent: nat)
    requires members != []
    ensures RenderMembers(members, format, indent) ==
            MemberHead(members[0].key, format, indent) + Render(members[0].value, format, indent)
            + MemberTail(|members| == 1, format) + RenderMembers(members[1..], format, indent)
  {
  }

  /** The pieces of the first printed member: key at `k`, colon at `c`, value at `v` up to `r`, the rest from `n` on. */
  lemma {:induction false} MemberParts(members: seq<Member>, format: bool, indent: nat, s: string, p: nat)
    returns (k: nat, c: nat, v: nat, r: nat, n: nat)
    requires members != [] && At(s, p, RenderMembers(members, format, indent))
    ensures At(s, p, Indent(format, indent)) && k == p + |Indent(format, indent)|
    ensures At(s, k, Quote(members[0].key)) && c == k + |Quote(members[0].key)|
    ensures At(s, c, Colon(format)) && v == c + |Colon(format)|
    ensures At(s, v, Render(members[0].value, format, indent)) && r == v + |Render(members[0].value, format, indent)|
    ensures At(s, r, MemberTail(|members| == 1, format)) && n == r + |MemberTail(|members| == 1, format)|
    ensures At(s, n, RenderMembers(members[1..], format, indent))
    ensures p + |RenderMembers(members, format, indent)| == n + |RenderMembers(members[1..], format, indent)|
  {
    hide *;
    MembersText(members, format, indent);
    AtFour(s, p, MemberHead(members[0].key, format, indent), Render(members[0].value, format, indent),
           MemberTail(|members| == 1, format), RenderMembers(members[1..], format, indent));
    k, c, v := HeadParts(members[0].key, format, indent, s, p);
    r := v + |Render(members[0].value, format, indent)|;
    n := r + |MemberTail(|members| == 1, format)|;
  }

  /** The printed members stand at `p`, followed by the line of the closing brace, which ends at `e`. */
  predicate MembersAt(members: seq<Member>, format: bool, indent: nat, s: string, p: nat, e: nat)
    requires indent > 0
  {
    var q := p + |RenderMembers(members, format, indent)|;
    && At(s, p, RenderMembers(members, format, indent))
    && At(s, q, Indent(format, indent - 1))
    && At(s, q + |Indent(format, indent - 1)|, "}")
    && e == q + |Indent(format, indent - 1)| + 1
  }

  lemma {:induction false} MembersStart(members: seq<Member>, format: bool, indent: nat, s: string, p: nat, e: nat)
    requires indent > 0 && MembersAt(members, format, indent, s, p, e)
    ensures At(s, p, RenderMembers(members, format, indent))
  {
  }

  /** Blanks, then the opening quote of the first key. */
  lemma {:induction false} MembersHead(members: seq<Member>, format: bool, indent: nat, s: string, p: nat)
    requires members != [] && At(s, p, RenderMembers(members, format, indent)) && Terminated(s)
    ensures var k := p + |Indent(format, indent)|;
            k < |s| && s[k] == '\"' && SkipBlanks(s, p) == k
  {
    hide *;
    var k, _, _, _, _ := MemberParts(members, format, indent, s, p);
    Punctuation();
    SkipsText(s, p, Indent(format, indent), Quote(members[0].key));
  }

  /** No members: the closing brace behind the blanks. */
  lemma {:induction false} NoMembers(format: bool, indent: nat, s: string, p: nat, e: nat)
    requires indent > 0 && MembersAt([], format, indent, s, p, e) && Terminated(s)
    ensures p < e <= |s| && s[e - 1] == '}' && SkipBlanks(s, p) == e - 1 && !NumberByte(s[p])
  {
    SkipsText(s, p, Indent(format, indent - 1), "}");
    if Indent(format, indent - 1) != [] {
      AtByte(s, p, Indent(format, indent - 1), 0);
    }
  }

  /** A line break, when formatted, is one more blank. */
  lemma {:induction false} SkipsBreak(s: string, p: nat, q: nat)
    requires Terminated(s) && p <= |s| && (p == q || (q == p + 1 && p < |s| && s[p] == '\n')) && q <= |s|
    ensures SkipBlanks(s, p) == SkipBlanks(s, q)
  {
  }

  lemma {:induction false} ObjectParts(members: seq<Member>, format: bool, indent: nat, s: string, p: nat)
    returns (q: nat, e: nat)
    requires Terminated(s) && At(s, p, Render(Object(members), format, indent))
    ensures p + 1 < |s| && s[p] == '{' && q <= |s| && MembersAt(members, format, indent + 1, s, q, e)
    ensures e == p + |Render(Object(members), format, indent)|
    ensures SkipBlanks(s, p + 1) == SkipBlanks(s, q)
  {
    hide Cut, RenderMembers, SkipBlanks, Tabs;
    var open := if format then "{\n" else "{";
    var body, tabs := RenderMembers(members, format, indent + 1), Indent(format, indent);
    assert Render(Object(members), format, indent) == open + body + tabs + "}";
    q := p + |open|;
    e := q + |body| + |tabs| + 1;
    AtFour(s, p, open, body, tabs, "}");
    AtByte(s, p, open, 0);
    AtByte(s, p, open, |open| - 1);
    AtByte(s, q + |body| + |tabs|, "}", 0);
    SkipsBreak(s, p + 1, q);
  }

  lemma {:induction false} TailBytes(last: bool, format: bool)
    ensures var tail := MemberTail(last, format);
            && |tail| == (if last then 0 else 1) + (if format then 1 else 0)
            && (!last ==> tail[0] == ',') && (format ==> tail[|tail| - 1] == '\n')
    ensures !NumberByte('}') && !NumberByte('\n') && !NumberByte('\t')
  {
  }

  /** After a value comes a comma and the next key, or the closing brace. */
  lemma {:induction false} MemberEnds(members: seq<Member>, format: bool, indent: nat, s: string, r: nat, n: nat,
                                      e: nat)
    requires members != [] && indent > 0 && Terminated(s)
    requires At(s, r, MemberTail(|members| == 1, format)) && n == r + |MemberTail(|members| == 1, format)|
    requires MembersAt(members[1..], format, indent, s, n, e)
    ensures r < |s| && !NumberByte(s[r])
    ensures |members| == 1 ==> e <= |s| && e > 0 && s[e - 1] == '}' && SkipBlanks(s, r) == e - 1
    ensures |members| > 1 ==>
              s[r] == ',' && SkipBlanks(s, r) == r && r + 1 < |s|
              && SkipBlanks(s, r + 1) == n + |Indent(format, indent)|
  {
    hide *;
    var tail := MemberTail(|members| == 1, format);
    TailBytes(|members| == 1, format);
    Punctuation();
    if tail != [] {
      AtByte(s, r, tail, 0);
      AtByte(s, r, tail, |tail| - 1);
    }
    if |members| == 1 {
      assert members[1..] == [];
      NoMembers(format, indent, s, n, e);
      SkipsBreak(s, r, n);
    } else {
      MembersStart(members[1..], format, indent, s, n, e);
      MembersHead(members[1..], format, indent, s, n);
      SkipsOne(s, r, r);
      SkipsBreak(s, r + 1, n);
    }
  }

  // ---------------------------------------------------------------- one step of the parser's loops

  /** parse_array's loop body, given what it reads. */
  lemma {:induction false} LastItem(s: string, start: nat, depth: nat, v: Json, r: nat)
    requires Terminated(s) && start < |s| && depth <= NESTING_LIMIT
    requires ParseValue(s, SkipBlanks(s, start), depth) == Some((v, r)) && s[SkipBlanks(s, r)] == ']'
    ensures ParseItems(s, start, depth) == Some(([v], SkipBlanks(s, r) + 1))
  {
    hide ParseValue, ReadString, SkipBlanks;
  }

  lemma {:induction false} NextItem(s: string, start: nat, depth: nat, v: Json, r: nat, rest: seq<Json>, e: nat)
    requires Terminated(s) && start < |s| && depth <= NESTING_LIMIT
    requires ParseValue(s, SkipBlanks(s, start), depth) == Some((v, r)) && s[SkipBlanks(s, r)] == ','
    requires SkipBlanks(s, r) + 1 < |s| && ParseItems(s, SkipBlanks(s, r) + 1, depth) == Some((rest, e))
    ensures ParseItems(s, start, depth) == Some(([v] + rest, e))
  {
    hide ParseValue, ReadString, SkipBlanks;
  }

  /** parse_object's loop body, given what it reads. */
  lemma {:induction false} LastMember(s: string, start: nat, depth: nat, m: Member, r: nat)
    requires Terminated(s) && start < |s| && depth <= NESTING_LIMIT
    requires ParseMember(s, start, depth) == Some((m, r)) && s[SkipBlanks(s, r)] == '}'
    ensures ParseMembers(s, start, depth) == Some(([m], SkipBlanks(s, r) + 1))
  {
    hide ParseMember, SkipBlanks;
  }

  lemma {:induction false} NextMember(s: string, start: nat, depth: nat, m: Member, r: nat, rest: seq<Member>, e: nat)
    requires Terminated(s) && start < |s| && depth <= NESTING_LIMIT
    requires ParseMember(s, start, depth) == Some((m, r)) && s[SkipBlanks(s, r)] == ','
    requires SkipBlanks(s, r) + 1 < |s| && ParseMembers(s, SkipBlanks(s, r) + 1, depth) == Some((rest, e))
    ensures ParseMembers(s, start, depth) == Some(([m] + rest, e))
  {
    hide ParseMember, SkipBlanks;
  }

  lemma {:induction false} OneMember(s: string, start: nat, depth: nat, key: string, c: nat, v: Json, r: nat)
    requires Terminated(s) && start < |s| && depth <= NESTING_LIMIT
    requires ReadString(s, SkipBlanks(s, start)) == Some((key, c))
    requires c < |s| && SkipBlanks(s, c) == c && s[c] == ':'
    requires ParseValue(s, SkipBlanks(s, c + 1), depth) == Some((v, r))
    ensures ParseMember(s, start, depth) == Some((Member(key, v), r))
  {
    hide ParseValue, ReadString, SkipBlanks;
  }

  // ---------------------------------------------------------------- printed trees read back

  lemma {:induction false} LeafReads(v: Json, format: bool, indent: nat, s: string, p: nat, depth: nat)
    requires !v.Array? && !v.Object?
    requires depth <= NESTING_LIMIT && Fits(v, NESTING_LIMIT - depth) && Terminated(s)
    requires At(s, p, Render(v, format, indent))
    requires var e := p + |Render(v, format, indent)|; e < |s| && !NumberByte(s[e])
    ensures p < |s| && ParseValue(s, p, depth) == Some((v, p + |Render(v, format, indent)|))
  {
    hide Cut, ParseNumber, ReadString, SkipBlanks, ParseItems, ParseMembers, Quote, Numeral;
    AtByte(s, p, Render(v, format, indent), 0);
    match v {
      case Null =>
      case False => WordHead(s, p, "null");
      case True => WordHead(s, p, "null"); WordHead(s, p, "false");
      case Number(digits) =>
        NoWordAt(s, p);
        NumberReads(digits, s, p);
      case String(bytes) =>
        NoWordAt(s, p);
        StringRoundTrip(bytes, s, p);
    }
  }

  /** Whatever fits a smaller room fits the whole limit. */
  lemma {:induction false} FitRoom(v: Json, items: seq<Json>, room: nat)
    requires room <= NESTING_LIMIT
    ensures Fits(v, room) ==> Fits(v, NESTING_LIMIT)
    ensures FitItems(items, room) ==> FitItems(items, NESTING_LIMIT)
  {
    FitsMeans(v, room);
    FitsMeans(v, NESTING_LIMIT);
    FitItemsMeans(items, room);
    FitItemsMeans(items, NESTING_LIMIT);
  }

  lemma {:induction false} OneItem(items: seq<Json>, format: bool, indent: nat)
    requires |items| == 1
    ensures RenderItems(items, format, indent) == Render(items[0], format, indent)
  {
  }

  lemma {:induction false} FirstKey(members: seq<Member>, format: bool, indent: nat, s: string, p: nat, e: nat)
    returns (k: nat)
    requires members != [] && indent > 0 && Terminated(s) && MembersAt(members, format, indent, s, p, e)
    ensures k == p + |Indent(format, indent)| < |s| && s[k] != '}'
    ensures SkipBlanks(s, p) == k && SkipBlanks(s, k) == k
  {
    hide *;
    k := p + |Indent(format, indent)|;
    Punctuation();
    MembersStart(members, format, indent, s, p, e);
    MembersHead(members, format, indent, s, p);
    SkipsOne(s, k, k);
  }

  lemma {:induction false} RestAt(members: seq<Member>, format: bool, indent: nat, s: string, p: nat, n: nat, e: nat)
    requires members != [] && indent > 0 && MembersAt(members, format, indent, s, p, e)
    requires At(s, n, RenderMembers(members[1..], format, indent))
    requires p + |RenderMembers(members, format, indent)| == n + |RenderMembers(members[1..], format, indent)|
    ensures MembersAt(members[1..], format, indent, s, n, e)
  {
    hide At, Indent, RenderMembers;
  }

  lemma {:induction false} ColonReads(key: string, value: string, format: bool, s: string, k: nat, c: nat, v: nat)
    requires NulFree(key) && value != [] && !Blank(value[0]) && Terminated(s)
    requires At(s, k, Quote(key)) && c == k + |Quote(key)|
    requires At(s, c, Colon(format)) && v == c + |Colon(format)| && At(s, v, value)
    ensures k < |s| && ReadString(s, k) == Some((key, c))
    ensures c < |s| && s[c] == ':' && SkipBlanks(s, c) == c && SkipBlanks(s, c + 1) == v < |s|
  {
    hide *;
    AtByte(s, k, Quote(key), 0);
    AtByte(s, c, Colon(format), 0);
    AtByte(s, c, Colon(format), |Colon(format)| - 1);
    AtByte(s, v, value, 0);
    Punctuation();
    SkipsOne(s, c, c);
    SkipsOne(s, c + 1, v);
    StringRoundTrip(key, s, k);
  }

  lemma {:induction false} ValueHead(value: Json, format: bool, indent: nat, room: nat)
    requires Fits(value, room)
    ensures Render(value, format, indent) != [] && !Blank(Render(value, format, indent)[0])
  {
    FitsMeans(value, room);
    RenderHead(value, format, indent);
  }

  /**
   Where a printed tree stands in the input, in front of a byte that cannot continue a number,
   parse_value yields the tree and stops right behind it.
   */
  lemma {:induction false} ValueReads(v: Json, format: bool, indent: nat, s: string, p: nat, depth: nat)
    requires depth <= NESTING_LIMIT && Fits(v, NESTING_LIMIT - depth) && Terminated(s)
    requires At(s, p, Render(v, format, indent))
    requires var e := p + |Render(v, format, indent)|; e < |s| && !NumberByte(s[e])
    ensures p < |s| && ParseValue(s, p, depth) == Some((v, p + |Render(v, format, indent)|))
    decreases v, 3
  {
    hide *;
    match v {
      case Array(items) =>
        ArrayReads(items, format, indent, s, p, depth);
      case Object(members) =>
        ObjectReads(members, format, indent, s, p, depth);
      case _ =>
        LeafReads(v, format, indent, s, p, depth);
    }
  }

  lemma {:induction false} ArrayReads(items: seq<Json>, format: bool, indent: nat, s: string, p: nat, depth: nat)
    requires depth <= NESTING_LIMIT && Fits(Array(items), NESTING_LIMIT - depth) && Terminated(s)
    requires At(s, p, Render(Array(items), format, indent))
    requires p + |Render(Array(items), format, indent)| < |s|
    ensures p < |s| && ParseValue(s, p, depth) == Some((Array(items), p + |Render(Array(items), format, indent)|))
    decreases items, 3
  {
    hide *;
    FitRoom(Array(items), [], NESTING_LIMIT - depth);
    FitParts(items, [], NESTING_LIMIT - depth);
    Punctuation();
    var e := ArrayParts(items, format, indent, s, p);
    if items == [] {
      SkipsOne(s, p + 1, p + 1);
      ArrayUnfolds(s, p, depth);
    } else {
      SkipsOne(s, p + 1, p + 1);
      ItemsRead(items, format, indent + 1, s, p + 1, p + 1, e, depth + 1);
      ArrayUnfolds(s, p, depth);
    }
  }

  lemma {:induction false} ItemsRead(items: seq<Json>, format: bool, indent: nat, s: string, start: nat, p: nat,
                                     e: nat, depth: nat)
    requires items != [] && depth <= NESTING_LIMIT && FitItems(items, NESTING_LIMIT - depth)
    requires Terminated(s) && start < |s| && SkipBlanks(s, start) == p
    requires At(s, p, RenderItems(items, format, indent)) && e == p + |RenderItems(items, format, indent)|
    requires e + 1 < |s| && s[e] == ']'
    ensures ParseItems(s, start, depth) == Some((items, e + 1))
    decreases items, 2
  {
    hide *;
    FitParts(items, [], NESTING_LIMIT - depth);
    Punctuation();
    if |items| == 1 {
      OneItem(items, format, indent);
      ValueReads(items[0], format, indent, s, p, depth);
      SkipsOne(s, e, e);
      LastItem(s, start, depth, items[0], e);
      assert items == [items[0]];
    } else {
      FitRoom(Null, items, NESTING_LIMIT - depth);
      var r, q := ItemParts(items, format, indent, s, p);
      ValueReads(items[0], format, indent, s, p, depth);
      ItemsRead(items[1..], format, indent, s, r + 1, q, e, depth);
      NextItem(s, start, depth, items[0], r, items[1..], e + 1);
      assert items == [items[0]] + items[1..];
    }
  }

  lemma {:induction false} ObjectReads(members: seq<Member>, format: bool, indent: nat, s: string, p: nat, depth: nat)
    requires depth <= NESTING_LIMIT && Fits(Object(members), NESTING_LIMIT - depth) && Terminated(s)
    requires At(s, p, Render(Object(members), format, indent))
    requires p + |Render(Object(members), format, indent)| < |s|
    ensures p < |s| && ParseValue(s, p, depth) == Some((Object(members), p + |Render(Object(members), format, indent)|))
    decreases members, 3
  {
    hide *;
    FitParts([], members, NESTING_LIMIT - depth);
    var q, e := ObjectParts(members, format, indent, s, p);
    if members == [] {
      NoMembers(format, indent + 1, s, q, e);
      ObjectUnfolds(s, p, depth);
    } else {
      var k := FirstKey(members, format, indent + 1, s, q, e);
      MembersRead(members, format, indent + 1, s, k, q, e, depth + 1);
      ObjectUnfolds(s, p, depth);
    }
  }

  lemma {:induction false} MembersRead(members: seq<Member>, format: bool, indent: nat, s: string, start: nat, p: nat,
                                       e: nat, depth: nat)
    requires members != [] && indent > 0 && depth <= NESTING_LIMIT && FitMembers(members, NESTING_LIMIT - depth)
    requires Terminated(s) && MembersAt(members, format, indent, s, p, e)
    requires start < |s| && SkipBlanks(s, start) == p + |Indent(format, indent)|
    ensures ParseMembers(s, start, depth) == Some((members, e))
    decreases members, 2
  {
    hide *;
    var room := NESTING_LIMIT - depth;
    var key, value := members[0].key, members[0].value;
    FitParts([], members, room);
    MembersStart(members, format, indent, s, p, e);
    var k, c, v, r, n := MemberParts(members, format, indent, s, p);
    RestAt(members, format, indent, s, p, n, e);
    MemberEnds(members, format, indent, s, r, n, e);
    ValueHead(value, format, indent, room);
    ColonReads(key, Render(value, format, indent), format, s, k, c, v);
    ValueReads(value, format, indent, s, v, depth);
    OneMember(s, start, depth, key, c, value, r);
    if |members| > 1 {
      MembersRead(members[1..], format, indent, s, r + 1, n, e, depth);
      NextMember(s, start, depth, Member(key, value), r, members[1..], e);
      assert members == [Member(key, value)] + members[1..];
    } else {
      LastMember(s, start, depth, Member(key, value), r);
      assert members == [Member(key, value)];
    }
  }

  /**
   Parsing a printed tree, in either format, succeeds even when nothing may follow it, yields the same
   tree with its items and members in the same order, and ends exactly at the terminator.
   */
  lemma {:induction false} DocumentRoundTrip(v: Json, format: bool)
    requires Printable(v) && RawFree(v) && Nesting(v) <= NESTING_LIMIT
    ensures ParseDocument(Content(Render(v, format, 0)), true) == Some((v, |Render(v, format, 0)|))
  {
    hide Printable, RawFree, Nesting, Render, ParseValue;
    var t := Render(v, format, 0);
    var s := Content(t);
    FitsMeans(v, NESTING_LIMIT);
    RenderHead(v, format, 0);
    assert s[0] == t[0];
    assert At(s, 0, t) && !NumberByte('\0');
    ValueReads(v, format, 0, s, 0, 0);
  }

  /**
   Printing a tree and parsing the text gives the tree with its numbers as they were spelled: the same tree exactly
   when every number was named by its own spelling, and in particular when there is no number.
   */
  lemma {:induction false} PrintedReads(v: Json, spell: string -> string, format: bool)
    requires Printable(Spelled(v, spell)) && RawFree(v) && Nesting(v) <= NESTING_LIMIT
    ensures var w := Spelled(v, spell);
            && ParseDocument(Content(Render(w, format, 0)), true) == Some((w, |Render(w, format, 0)|))
            && (w == v <==> AsSpelled(v, spell)) && (NumberFree(v) ==> w == v)
  {
    hide *;
    SpelledShape(v, spell);
    SpelledIsSame(v, spell);
    DocumentRoundTrip(Spelled(v, spell), format);
    if NumberFree(v) {
      NumberFreeIsSpelled(v, spell);
    }
  }

  // ---------------------------------------------------------------- what the parser yields can be printed

  lemma {:induction false} SpelledFits(t: string, spell: string -> string, room: nat)
    requires Spelling(spell)
    ensures Fits(Spelled(Number(t), spell), room)
  {
    hide PrintedNumber;
    assert spell(t) == "null" || PrintedNumber(spell(t));
  }

  function SpelledItems(items: seq<Json>, spell: string -> string): seq<Json> {
    Spelled(Array(items), spell).items
  }

  function SpelledMembers(members: seq<Member>, spell: string -> string): seq<Member> {
    Spelled(Object(members), spell).members
  }

  lemma {:induction false} ReadStringIsNulFree(s: string, p: nat)
    requires p < |s|
    ensures match ReadString(s, p)
            case None => true
            case Some((bytes, _)) => NulFree(bytes)
  {
  }

  lemma {:induction false} ConsItem(v: Json, rest: seq<Json>, room: nat, spell: string -> string)
    ensures FitItems(SpelledItems([v] + rest, spell), room) <==>
              Fits(Spelled(v, spell), room) && FitItems(SpelledItems(rest, spell), room)
  {
    hide Fits;
    var items := SpelledItems([v] + rest, spell);
    assert items[0] == Spelled(v, spell) && items[1..] == SpelledItems(rest, spell);
  }

  lemma {:induction false} ConsMember(m: Member, rest: seq<Member>, room: nat, spell: string -> string)
    ensures FitMembers(SpelledMembers([m] + rest, spell), room)
            <==> NulFree(m.key) && Fits(Spelled(m.value, spell), room) && FitMembers(SpelledMembers(rest, spell), room)
  {
    hide Fits, NulFree;
    var members := SpelledMembers([m] + rest, spell);
    assert members[0] == Member(m.key, Spelled(m.value, spell)) && members[1..] == SpelledMembers(rest, spell);
  }

  lemma {:induction false} NothingFits(room: nat, spell: string -> string)
    ensures FitItems(SpelledItems([], spell), room) && FitMembers(SpelledMembers([], spell), room)
  {
    assert SpelledItems([], spell) == [] && SpelledMembers([], spell) == [];
  }

  /** A value without children. */
  lemma {:induction false} ParsedLeafFits(s: string, p: nat, depth: nat, spell: string -> string)
    requires Terminated(s) && p < |s| && depth <= NESTING_LIMIT && Spelling(spell) && s[p] != '[' && s[p] != '{'
    ensures match ParseValue(s, p, depth)
            case None => true
            case Some((v, _)) => Fits(Spelled(v, spell), NESTING_LIMIT - depth)
  {
    hide Cut, ReadString, PrintedNumber, Spelling, ParseItems, ParseMembers, FitItems, FitMembers;
    ReadStringIsNulFree(s, p);
    match ParseNumber(s, p) {
      case None =>
      case Some((v, _)) => SpelledFits(v.digits, spell, NESTING_LIMIT - depth);
    }
  }

  lemma {:induction false} ContainerFits(items: seq<Json>, members: seq<Member>, spell: string -> string, room: nat)
    requires room > 0
    ensures Fits(Spelled(Array(items), spell), room) <==> FitItems(SpelledItems(items, spell), room - 1)
    ensures Fits(Spelled(Object(members), spell), room) <==> FitMembers(SpelledMembers(members, spell), room - 1)
  {
    hide FitItems, FitMembers;
  }

  lemma {:induction false} KeyAdvances(s: string, p: nat)
    requires Terminated(s) && p < |s|
    ensures match ReadString(s, SkipBlanks(s, p))
            case None => true
            case Some((_, k)) => p + 1 < k <= SkipBlanks(s, k) || k == |s|
  {
  }

  /** Whatever the parser returns can be printed, whatever the spelling of its numbers, and obeys the nesting limit. */
  lemma {:induction false} ParsedFits(s: string, p: nat, depth: nat, spell: string -> string)
    requires Terminated(s) && p < |s| && depth <= NESTING_LIMIT && Spelling(spell)
    ensures match ParseValue(s, p, depth)
            case None => true
            case Some((v, _)) => Fits(Spelled(v, spell), NESTING_LIMIT - depth)
    decreases |s| - p, 0
  {
    hide ParseValue, ParseItems, ParseMembers, SkipBlanks, Fits, FitItems, FitMembers, Spelled, SpelledItems,
         SpelledMembers, Spelling;
    if s[p] == '[' {
      ArrayUnfolds(s, p, depth);
      if depth < NESTING_LIMIT {
        ParsedItemsFit(s, SkipBlanks(s, p + 1), depth + 1, spell);
        NothingFits(NESTING_LIMIT - depth - 1, spell);
        match ParseValue(s, p, depth) {
          case None =>
          case Some((v, _)) => ContainerFits(v.items, [], spell, NESTING_LIMIT - depth);
        }
      }
    } else if s[p] == '{' {
      ObjectUnfolds(s, p, depth);
      if depth < NESTING_LIMIT {
        ParsedMembersFit(s, SkipBlanks(s, p + 1), depth + 1, spell);
        NothingFits(NESTING_LIMIT - depth - 1, spell);
        match ParseValue(s, p, depth) {
          case None =>
          case Some((v, _)) => ContainerFits([], v.members, spell, NESTING_LIMIT - depth);
        }
      }
    } else {
      ParsedLeafFits(s, p, depth, spell);
    }
  }

  lemma {:induction false} ParsedItemsFit(s: string, p: nat, depth: nat, spell: string -> string)
    requires Terminated(s) && p < |s| && depth <= NESTING_LIMIT && Spelling(spell)
    ensures match ParseItems(s, p, depth)
            case None => true
            case Some((items, _)) => FitItems(SpelledItems(items, spell), NESTING_LIMIT - depth)
    decreases |s| - p, 1
  {
    hide Fits, FitItems, ParseValue, Spelled, SpelledItems, Spelling;
    ParsedFits(s, SkipBlanks(s, p), depth, spell);
    match ParseValue(s, SkipBlanks(s, p), depth) {
      case None =>
      case Some((v, r)) =>
        var q := SkipBlanks(s, r);
        ConsItem(v, [], NESTING_LIMIT - depth, spell);
        assert [v] + [] == [v];
        NothingFits(NESTING_LIMIT - depth, spell);
        if s[q] == ',' {
          ParsedItemsFit(s, q + 1, depth, spell);
          if ParseItems(s, q + 1, depth).Some? {
            ConsItem(v, ParseItems(s, q + 1, depth).value.0, NESTING_LIMIT - depth, spell);
          }
        }
    }
  }

  lemma {:induction false} ParsedMembersFit(s: string, p: nat, depth: nat, spell: string -> string)
    requires Terminated(s) && p < |s| && depth <= NESTING_LIMIT && Spelling(spell)
    ensures match ParseMembers(s, p, depth)
            case None => true
            case Some((members, _)) => FitMembers(SpelledMembers(members, spell), NESTING_LIMIT - depth)
    decreases |s| - p, 2
  {
    hide Fits, FitMembers, ParseMember, Spelled, SpelledMembers, Spelling;
    ParsedMemberFits(s, p, depth, spell);
    match ParseMember(s, p, depth) {
      case None =>
      case Some((m, r)) =>
        var q := SkipBlanks(s, r);
        ConsMember(m, [], NESTING_LIMIT - depth, spell);
        assert [m] + [] == [m];
        NothingFits(NESTING_LIMIT - depth, spell);
        if s[q] == ',' {
          ParsedMembersFit(s, q + 1, depth, spell);
          if ParseMembers(s, q + 1, depth).Some? {
            ConsMember(m, ParseMembers(s, q + 1, depth).value.0, NESTING_LIMIT - depth, spell);
          }
        }
    }
  }

  lemma {:induction false} ParsedMemberFits(s: string, p: nat, depth: nat, spell: string -> string)
    requires Terminated(s) && p < |s| && depth <= NESTING_LIMIT && Spelling(spell)
    ensures match ParseMember(s, p, depth)
            case None => true
            case Some((m, _)) => NulFree(m.key) && Fits(Spelled(m.value, spell), NESTING_LIMIT - depth)
    decreases |s| - p, 1
  {
    hide Fits, ParseValue, ReadString, Spelled, Spelling;
    ReadStringIsNulFree(s, SkipBlanks(s, p));
    match ReadString(s, SkipBlanks(s, p)) {
      case None =>
      case Some((key, k)) =>
        var c := SkipBlanks(s, k);
        if s[c] == ':' {
          KeyAdvances(s, p);
          ParsedFits(s, SkipBlanks(s, c + 1), depth, spell);
        }
    }
  }

  /**
   Whatever text the parser accepts, printing its tree and parsing that gives the tree with its numbers as spelled: the
   tree that was parsed exactly when each of its numerals is its own spelling. Printing and parsing once more changes
   nothing exactly when the spellings have settled.
   */
  lemma {:induction false} PrintedParse(s: string, requireTerminator: bool, v: Json, e: nat, spell: string -> string,
                                        format: bool)
    requires Terminated(s) && ParseDocument(s, requireTerminator) == Some((v, e)) && Spelling(spell)
    ensures var w := Spelled(v, spell);
            && ParseDocument(Content(Render(w, format, 0)), true) == Some((w, |Render(w, format, 0)|))
            && (w == v <==> AsSpelled(v, spell))
    ensures var w, x := Spelled(v, spell), Spelled(Spelled(v, spell), spell);
            && ParseDocument(Content(Render(x, format, 0)), true) == Some((x, |Render(x, format, 0)|))
            && (x == w <==> Settled(v, spell))
  {
    hide ParseValue, Fits, Render, Spelled, Settled, AsSpelled, Nesting, RawFree, Printable, Spelling;
    var w := Spelled(v, spell);
    ParsedFits(s, SkipBlanks(s, SkipMark(s)), 0, spell);
    FitsMeans(w, NESTING_LIMIT);
    DocumentRoundTrip(w, format);
    SpelledIsSame(v, spell);
    SpelledIsSame(w, spell);
    SpelledSettles(v, spell);
    var again := Content(Render(w, format, 0));
    ParsedFits(again, SkipBlanks(again, SkipMark(again)), 0, spell);
    FitsMeans(Spelled(w, spell), NESTING_LIMIT);
    DocumentRoundTrip(Spelled(w, spell), format);
  }

  lemma {:induction false} SampleNumerals()
    ensures PrintedNumber("0.10") && PrintedNumber("0.1") && PrintedNumber("1e400")
  {
    var a, b, c := "0.10", "0.1", "1e400";
    assert Digits(a, 4) == 0 && Digits(a, 3) == 1 && Digits(a, 2) == 2;
    assert Digits(a, 1) == 0 && Digits(a, 0) == 1;
    assert Digits(b, 3) == 0 && Digits(b, 2) == 1 && Digits(b, 1) == 0 && Digits(b, 0) == 1;
    assert Digits(c, 5) == 0 && Digits(c, 4) == 1 && Digits(c, 3) == 2 && Digits(c, 2) == 3;
    assert Digits(c, 1) == 0 && Digits(c, 0) == 1;
  }

  /** The text of a number reads as that number. */
  lemma {:induction false} NumeralReads(t: string)
    requires PrintedNumber(t)
    ensures ParseDocument(Content(t), true) == Some((Number(t), |t|))
  {
    hide PrintedNumber, ParseDocument;
    DocumentRoundTrip(Number(t), false);
  }

  /**
   Two texts that are not read again as what they were, if the conversions write 0.1 for the one and, it being an
   infinity, null for the other: both are read, and what is printed for them is read as another tree.
   */
  lemma {:induction false} NumeralsChange(spell: string -> string, format: bool)
    requires Spelling(spell) && spell("0.10") == "0.1" && spell("1e400") == "null"
    ensures ParseDocument(Content("0.10"), true) == Some((Number("0.10"), 4))
    ensures var text := Render(Spelled(Number("0.10"), spell), format, 0);
            text == "0.1" && ParseDocument(Content(text), true) == Some((Number("0.1"), 3))
    ensures ParseDocument(Content("1e400"), true) == Some((Number("1e400"), 5))
    ensures var text := Render(Spelled(Number("1e400"), spell), format, 0);
            text == "null" && ParseDocument(Content(text), true) == Some((Null, 4))
  {
    hide ParseDocument, PrintedNumber, Spelling;
    SampleNumerals();
    NumeralReads("0.10");
    NumeralReads("1e400");
    assert "null"[0] != "0.1"[0];
    PrintedParse(Content("0.10"), true, Number("0.10"), 4, spell, format);
    PrintedParse(Content("1e400"), true, Number("1e400"), 5, spell, format);
  }
}
