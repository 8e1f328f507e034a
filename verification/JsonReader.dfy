/**
 What the cJSON parser accepts and yields, as functions on the content of the parse buffer.
 */
module JsonReader {
  import opened Prelude
  import opened StringCodec
  import opened Json

  /** The content of a parse buffer ends with the terminator of the C string. */
  predicate Terminated(s: string) {
    |s| > 0 && s[|s| - 1] == '\0'
  }

  /** The content of the parse buffer for the text of a C string. */
  function Content(text: string): (s: string)
    ensures Terminated(s)
  {
    text + ['\0']
  }

  predicate Blank(c: char) { c <= ' ' }

  /** buffer_skip_whitespace: the next byte above 32, or the terminator after stepping back onto it. */
  function SkipBlanks(s: string, p: nat): (q: nat)
    requires Terminated(s) && p <= |s|
    ensures q < |s| && (p < |s| ==> p <= q)
    decreases |s| - p
  {
    if p == |s| then |s| - 1
    else if Blank(s[p]) then SkipBlanks(s, p + 1)
    else p
  }

  /** parse_number copies at most 63 bytes. */
  const NUMBER_BUFFER := 63

  /** The bytes at which parse_value expects a number. */
  predicate NumberStart(c: char) { c == '-' || Digit(c) }

  /** The number of number bytes at `p`, at most `room`. */
  function NumberRun(s: string, p: nat, room: nat): (n: nat)
    requires p <= |s|
    ensures n <= room && p + n <= |s|
    decreases room
  {
    if room > 0 && p < |s| && NumberByte(s[p]) then 1 + NumberRun(s, p + 1, room - 1) else 0
  }

  /** strtod: the longest prefix, of at most `n` bytes, that is a numeral. */
  function NumeralPrefix(w: string, n: nat): (k: nat)
    requires n <= |w|
    ensures k <= n && (k > 0 ==> Numeral(w[..k]))
  {
    if n == 0 then 0 else if Numeral(w[..n]) then n else NumeralPrefix(w, n - 1)
  }

  lemma {:induction false} RunStops(s: string, p: nat, room: nat)
    requires Terminated(s) && p < |s|
    ensures p + NumberRun(s, p, room) < |s|
    decreases room
  {
    if room > 0 && p + 1 < |s| {
      RunStops(s, p + 1, room - 1);
    }
  }

  function ParseNumber(s: string, p: nat): (r: Option<(Json, nat)>)
    requires Terminated(s) && p < |s|
    ensures r.Some? ==> p < r.value.1 < |s|
  {
    var run := s[p..p + NumberRun(s, p, NUMBER_BUFFER)];
    var k := NumeralPrefix(run, |run|);
    if k == 0 then None else RunStops(s, p, NUMBER_BUFFER); Some((Number(run[..k]), p + k))
  }

  /** parse_value inside `depth` open containers. */
  function ParseValue(s: string, p: nat, depth: nat): (r: Option<(Json, nat)>)
    requires Terminated(s) && p < |s| && depth <= NESTING_LIMIT
    ensures r.Some? ==> p < r.value.1 < |s|
    decreases |s| - p, 0
  {
    if At(s, p, "null") then Some((Null, p + 4))
    else if At(s, p, "false") then AtByte(s, p, "false", 4); Some((False, p + 5))
    else if At(s, p, "true") then Some((True, p + 4))
    else if s[p] == '\"' then
      match ReadString(s, p)
      case None => None
      case Some((bytes, r)) => Some((String(bytes), r))
    else if NumberStart(s[p]) then ParseNumber(s, p)
    else if s[p] == '[' then
      if depth >= NESTING_LIMIT then None
      else
        var q := SkipBlanks(s, p + 1);
        if s[q] == ']' then Some((Array([]), q + 1))
        else
          match ParseItems(s, q, depth + 1)
          case None => None
          case Some((items, r)) => Some((Array(items), r))
    else if s[p] == '{' then
      if depth >= NESTING_LIMIT then None
      else
        var q := SkipBlanks(s, p + 1);
        if s[q] == '}' then Some((Object([]), q + 1))
        else
          match ParseMembers(s, q, depth + 1)
          case None => None
          case Some((members, r)) => Some((Object(members), r))
    else None
  }

  /** The items from `p` up to and including the closing bracket. */
  function ParseItems(s: string, p: nat, depth: nat): (r: Option<(seq<Json>, nat)>)
    requires Terminated(s) && p < |s| && depth <= NESTING_LIMIT
    ensures r.Some? ==> p < r.value.1 < |s| && |r.value.0| > 0
    decreases |s| - p, 1
  {
    match ParseValue(s, SkipBlanks(s, p), depth)
    case None => None
    case Some((v, r)) =>
      var q := SkipBlanks(s, r);
      if s[q] == ',' then
        match ParseItems(s, q + 1, depth)
        case None => None
        case Some((rest, e)) => Some(([v] + rest, e))
      else if s[q] == ']' then Some(([v], q + 1))
      else None
  }

  /** A key, a colon and a value. */
  function ParseMember(s: string, p: nat, depth: nat): (r: Option<(Member, nat)>)
    requires Terminated(s) && p < |s| && depth <= NESTING_LIMIT
    ensures r.Some? ==> p < r.value.1 < |s|
    decreases |s| - p, 1
  {
    match ReadString(s, SkipBlanks(s, p))
    case None => None
    case Some((key, k)) =>
      var c := SkipBlanks(s, k);
      if s[c] != ':' then None
      else
        match ParseValue(s, SkipBlanks(s, c + 1), depth)
        case None => None
        case Some((v, r)) => Some((Member(key, v), r))
  }

  /** The members from `p` up to and including the closing brace. */
  function ParseMembers(s: string, p: nat, depth: nat): (r: Option<(seq<Member>, nat)>)
    requires Terminated(s) && p < |s| && depth <= NESTING_LIMIT
    ensures r.Some? ==> p < r.value.1 < |s| && |r.value.0| > 0
    decreases |s| - p, 2
  {
    match ParseMember(s, p, depth)
    case None => None
    case Some((m, r)) =>
      var q := SkipBlanks(s, r);
      if s[q] == ',' then
        match ParseMembers(s, q + 1, depth)
        case None => None
        case Some((rest, e)) => Some(([m] + rest, e))
      else if s[q] == '}' then Some(([m], q + 1))
      else None
  }

  lemma {:induction false} WordHead(s: string, p: nat, w: string)
    requires p < |s| && w != []
    ensures At(s, p, w) ==> s[p] == w[0]
  {
    if At(s, p, w) {
      AtByte(s, p, w, 0);
    }
  }

  lemma {:induction false} NoWordAt(s: string, p: nat)
    requires p < |s| && s[p] != 'n' && s[p] != 'f' && s[p] != 't'
    ensures !At(s, p, "null") && !At(s, p, "false") && !At(s, p, "true")
  {
    WordHead(s, p, "null");
    WordHead(s, p, "false");
    WordHead(s, p, "true");
  }

  /** What parse_value does in front of an opening bracket. */
  lemma {:induction false} ArrayUnfolds(s: string, p: nat, depth: nat)
    requires Terminated(s) && p < |s| && s[p] == '[' && depth <= NESTING_LIMIT
    ensures p + 1 < |s|
    ensures depth >= NESTING_LIMIT ==> ParseValue(s, p, depth) == None
    ensures depth < NESTING_LIMIT && s[SkipBlanks(s, p + 1)] == ']' ==>
              ParseValue(s, p, depth) == Some((Array([]), SkipBlanks(s, p + 1) + 1))
    ensures depth < NESTING_LIMIT && s[SkipBlanks(s, p + 1)] != ']' ==>
              match ParseItems(s, SkipBlanks(s, p + 1), depth + 1)
              case None => ParseValue(s, p, depth) == None
              case Some((items, e)) => ParseValue(s, p, depth) == Some((Array(items), e))
  {
    hide ParseItems, ParseMembers, SkipBlanks;
    NoWordAt(s, p);
  }

  /** What parse_value does in front of an opening brace. */
  lemma {:induction false} ObjectUnfolds(s: string, p: nat, depth: nat)
    requires Terminated(s) && p < |s| && s[p] == '{' && depth <= NESTING_LIMIT
    ensures p + 1 < |s|
    ensures depth >= NESTING_LIMIT ==> ParseValue(s, p, depth) == None
    ensures depth < NESTING_LIMIT && s[SkipBlanks(s, p + 1)] == '}' ==>
              ParseValue(s, p, depth) == Some((Object([]), SkipBlanks(s, p + 1) + 1))
    ensures depth < NESTING_LIMIT && s[SkipBlanks(s, p + 1)] != '}' ==>
              match ParseMembers(s, SkipBlanks(s, p + 1), depth + 1)
              case None => ParseValue(s, p, depth) == None
              case Some((members, e)) => ParseValue(s, p, depth) == Some((Object(members), e))
  {
    hide ParseItems, ParseMembers, SkipBlanks;
    NoWordAt(s, p);
  }

  // ---------------------------------------------------------------- texts in which no number is met

  /** parse_value at `p` comes to parse_number, before or after other values have been read. */
  predicate NumberMet(s: string, p: nat, depth: nat)
    requires Terminated(s) && p < |s| && depth <= NESTING_LIMIT
    decreases |s| - p, 0
  {
    if s[p] == '[' then
      depth < NESTING_LIMIT && s[SkipBlanks(s, p + 1)] != ']' && NumberMetInItems(s, SkipBlanks(s, p + 1), depth + 1)
    else if s[p] == '{' then
      depth < NESTING_LIMIT && s[SkipBlanks(s, p + 1)] != '}' && NumberMetInMembers(s, SkipBlanks(s, p + 1), depth + 1)
    else NumberStart(s[p])
  }

  predicate NumberMetInItems(s: string, p: nat, depth: nat)
    requires Terminated(s) && p < |s| && depth <= NESTING_LIMIT
    decreases |s| - p, 1
  {
    || NumberMet(s, SkipBlanks(s, p), depth)
    || match ParseValue(s, SkipBlanks(s, p), depth)
       case None => false
       case Some((_, r)) => var q := SkipBlanks(s, r); s[q] == ',' && NumberMetInItems(s, q + 1, depth)
  }

  /** The value of the member at `p`. */
  predicate NumberMetInMember(s: string, p: nat, depth: nat)
    requires Terminated(s) && p < |s| && depth <= NESTING_LIMIT
    decreases |s| - p, 1
  {
    match ReadString(s, SkipBlanks(s, p))
    case None => false
    case Some((_, k)) => var c := SkipBlanks(s, k); s[c] == ':' && NumberMet(s, SkipBlanks(s, c + 1), depth)
  }

  predicate NumberMetInMembers(s: string, p: nat, depth: nat)
    requires Terminated(s) && p < |s| && depth <= NESTING_LIMIT
    decreases |s| - p, 2
  {
    || NumberMetInMember(s, p, depth)
    || match ParseMember(s, p, depth)
       case None => false
       case Some((_, r)) => var q := SkipBlanks(s, r); s[q] == ',' && NumberMetInMembers(s, q + 1, depth)
  }

  lemma {:induction false} NumberIsNumber(s: string, p: nat)
    requires Terminated(s) && p < |s|
    ensures ParseNumber(s, p).Some? ==> ParseNumber(s, p).value.0.Number?
  {
    hide Numeral, NumeralPrefix, NumberRun;
  }

  lemma {:induction false} FreeItems(v: Json, rest: seq<Json>)
    ensures NumberFree(Array([v] + rest)) <==> NumberFree(v) && NumberFree(Array(rest))
  {
    var items := [v] + rest;
    assert items[0] == v;
    assert forall i :: 0 <= i < |rest| ==> rest[i] == items[i + 1];
    if NumberFree(v) && NumberFree(Array(rest)) {
      forall i | 0 <= i < |items| ensures NumberFree(items[i]) {
        assert i > 0 ==> items[i] == rest[i - 1];
      }
    }
  }

  lemma {:induction false} FreeMembers(m: Member, rest: seq<Member>)
    ensures NumberFree(Object([m] + rest)) <==> NumberFree(m.value) && NumberFree(Object(rest))
  {
    var members := [m] + rest;
    assert members[0] == m;
    assert forall i :: 0 <= i < |rest| ==> rest[i] == members[i + 1];
    if NumberFree(m.value) && NumberFree(Object(rest)) {
      forall i | 0 <= i < |members| ensures NumberFree(members[i].value) {
        assert i > 0 ==> members[i] == rest[i - 1];
      }
    }
  }

  /** The tree that is read shows whether a number was met. */
  lemma {:induction false} NumberFreeUnmet(s: string, p: nat, depth: nat)
    requires Terminated(s) && p < |s| && depth <= NESTING_LIMIT
    ensures match ParseValue(s, p, depth)
            case None => true
            case Some((v, _)) => NumberMet(s, p, depth) <==> !NumberFree(v)
    decreases |s| - p, 0
  {
    hide ParseNumber, ReadString, ParseItems, ParseMembers, NumberMetInItems, NumberMetInMembers;
    if s[p] == '[' {
      NoWordAt(s, p);
      ItemsUnmet(s, SkipBlanks(s, p + 1), if depth < NESTING_LIMIT then depth + 1 else depth);
    } else if s[p] == '{' {
      NoWordAt(s, p);
      MembersUnmet(s, SkipBlanks(s, p + 1), if depth < NESTING_LIMIT then depth + 1 else depth);
    } else if NumberStart(s[p]) {
      NoWordAt(s, p);
      NumberIsNumber(s, p);
    }
  }

  lemma {:induction false} ItemsUnmet(s: string, p: nat, depth: nat)
    requires Terminated(s) && p < |s| && depth <= NESTING_LIMIT
    ensures match ParseItems(s, p, depth)
            case None => true
            case Some((items, _)) => NumberMetInItems(s, p, depth) <==> !NumberFree(Array(items))
    decreases |s| - p, 1
  {
    hide ParseValue, NumberMet;
    NumberFreeUnmet(s, SkipBlanks(s, p), depth);
    match ParseValue(s, SkipBlanks(s, p), depth) {
      case None =>
      case Some((v, r)) =>
        var q := SkipBlanks(s, r);
        if s[q] == ',' {
          ItemsUnmet(s, q + 1, depth);
          match ParseItems(s, q + 1, depth) {
            case None =>
            case Some((rest, _)) => FreeItems(v, rest);
          }
        } else {
          FreeItems(v, []);
          assert [v] + [] == [v];
        }
    }
  }

  lemma {:induction false} MemberUnmet(s: string, p: nat, depth: nat)
    requires Terminated(s) && p < |s| && depth <= NESTING_LIMIT
    ensures match ParseMember(s, p, depth)
            case None => true
            case Some((m, _)) => NumberMetInMember(s, p, depth) <==> !NumberFree(m.value)
    decreases |s| - p, 1
  {
    hide ParseValue, NumberMet;
    match ReadString(s, SkipBlanks(s, p)) {
      case None =>
      case Some((_, k)) =>
        var c := SkipBlanks(s, k);
        if s[c] == ':' {
          NumberFreeUnmet(s, SkipBlanks(s, c + 1), depth);
        }
    }
  }

  lemma {:induction false} MembersUnmet(s: string, p: nat, depth: nat)
    requires Terminated(s) && p < |s| && depth <= NESTING_LIMIT
    ensures match ParseMembers(s, p, depth)
            case None => true
            case Some((members, _)) => NumberMetInMembers(s, p, depth) <==> !NumberFree(Object(members))
    decreases |s| - p, 2
  {
    hide ParseMember, NumberMetInMember;
    MemberUnmet(s, p, depth);
    match ParseMember(s, p, depth) {
      case None =>
      case Some((m, r)) =>
        var q := SkipBlanks(s, r);
        if s[q] == ',' {
          MembersUnmet(s, q + 1, depth);
          match ParseMembers(s, q + 1, depth) {
            case None =>
            case Some((rest, _)) => FreeMembers(m, rest);
          }
        } else {
          FreeMembers(m, []);
          assert [m] + [] == [m];
        }
    }
  }

  /** skip_utf8_bom: a byte order mark is skipped when at least five bytes can be accessed. */
  function SkipMark(s: string): (p: nat)
    requires Terminated(s)
    ensures p < |s|
  {
    if |s| > 4 && s[0] as int == 0xEF && s[1] as int == 0xBB && s[2] as int == 0xBF then 3 else 0
  }

  /** cJSON_ParseWithOpts: the tree and the position where parsing ended. */
  function ParseDocument(s: string, requireTerminator: bool): (r: Option<(Json, nat)>)
    requires Terminated(s)
    ensures r.Some? ==> r.value.1 < |s|
  {
    match ParseValue(s, SkipBlanks(s, SkipMark(s)), 0)
    case None => None
    case Some((v, e)) =>
      if !requireTerminator then Some((v, e))
      else if s[SkipBlanks(s, e)] == '\0' then Some((v, SkipBlanks(s, e)))
      else None
  }
}
