/** cJSON_Minify: blanks and comments are removed in place, string literals are kept. */
module Minify {
  import opened Prelude
  import opened StringCodec

  // ---------------------------------------------------------------- what is left of a text

  predicate Removed(c: char) { c == ' ' || c == '\t' || c == '\r' || c == '\n' }

  predicate StartsAt(s: string, p: nat, a: char, b: char) {
    p + 1 < |s| && s[p] == a && s[p + 1] == b
  }

  /** Where a line comment ends: at its line break or at the terminator. */
  function LineEnd(s: string, p: nat): (q: nat)
    requires p <= |s|
    ensures p <= q <= |s|
    decreases |s| - p
  {
    if p == |s| || s[p] == '\n' then p else LineEnd(s, p + 1)
  }

  /** The first star and slash, if there are any. */
  function BlockEnd(s: string, p: nat): (q: Option<nat>)
    requires p <= |s|
    ensures q.Some? ==> p <= q.value && q.value + 1 < |s|
    decreases |s| - p
  {
    if p == |s| then None else if StartsAt(s, p, '*', '/') then Some(p) else BlockEnd(s, p + 1)
  }

  lemma {:induction false} LineAdvances(s: string, p: nat)
    requires p < |s| && s[p] != '\n'
    ensures p < LineEnd(s, p)
  {
  }

  /**
   What cJSON_Minify leaves of the text from `p` on. None when the scan steps over the terminator: inside a string
   literal or a block comment that is not closed.
   */
  function Minified(s: string, p: nat): Option<string>
    requires p <= |s|
    decreases |s| - p
  {
    if p == |s| then Some([])
    else if Removed(s[p]) then Minified(s, p + 1)
    else if StartsAt(s, p, '/', '/') then LineAdvances(s, p); Minified(s, LineEnd(s, p))
    else if StartsAt(s, p, '/', '*') then
      match BlockEnd(s, p)
      case None => None
      case Some(q) => Minified(s, q + 2)
    else if s[p] == '\"' then
      match ClosingQuote(s, p + 1)
      case None => None
      case Some(q) => Prepend(s[p..q + 1], Minified(s, q + 1))
    else Prepend([s[p]], Minified(s, p + 1))
  }

  // ---------------------------------------------------------------- where the scan ends

  /** A reading of the text byte by byte, without looking ahead. */
  datatype State = Code | Slash | Line | Block | Star | Literal | Escaped

  function Step(state: State, c: char): State {
    match state
    case Code => if c == '/' then Slash else if c == '\"' then Literal else Code
    case Slash => if c == '/' then Line else if c == '*' then Star else if c == '\"' then Literal else Code
    case Line => if c == '\n' then Code else Line
    case Block => if c == '*' then Star else Block
    case Star => if c == '/' then Code else if c == '*' then Star else Block
    case Literal => if c == '\\' then Escaped else if c == '\"' then Code else Literal
    case Escaped => Literal
  }

  function Run(state: State, s: string, p: nat): State
    requires p <= |s|
    decreases |s| - p
  {
    if p == |s| then state else Run(Step(state, s[p]), s, p + 1)
  }

  /** Nothing is left open at the end of the text. */
  predicate Closed(state: State) { state.Code? || state.Slash? || state.Line? }

  lemma {:induction false} RunThroughLine(s: string, p: nat)
    requires p <= |s|
    ensures LineEnd(s, p) < |s| ==> Run(Line, s, p) == Run(Code, s, LineEnd(s, p))
    ensures LineEnd(s, p) == |s| ==> Run(Line, s, p) == Line
    decreases |s| - p
  {
    if p < |s| && s[p] != '\n' {
      RunThroughLine(s, p + 1);
    }
  }

  lemma {:induction false} RunThroughBlock(s: string, p: nat)
    requires p < |s| && s[p] == '*'
    ensures match BlockEnd(s, p)
            case None => !Closed(Run(Star, s, p + 1))
            case Some(q) => Run(Star, s, p + 1) == Run(Code, s, q + 2)
    decreases |s| - p, 0
  {
    if p + 1 < |s| && s[p + 1] != '/' {
      if s[p + 1] == '*' {
        RunThroughBlock(s, p + 1);
      } else {
        RunInBlock(s, p + 2);
        assert BlockEnd(s, p) == BlockEnd(s, p + 1) == BlockEnd(s, p + 2);
      }
    } else if p + 1 == |s| {
      assert BlockEnd(s, p) == BlockEnd(s, p + 1) == None;
    }
  }

  lemma {:induction false} RunInBlock(s: string, p: nat)
    requires p <= |s|
    ensures match BlockEnd(s, p)
            case None => !Closed(Run(Block, s, p))
            case Some(q) => Run(Block, s, p) == Run(Code, s, q + 2)
    decreases |s| - p, 1
  {
    if p < |s| {
      if s[p] == '*' {
        RunThroughBlock(s, p);
      } else {
        RunInBlock(s, p + 1);
      }
    }
  }

  lemma {:induction false} RunThroughLiteral(s: string, p: nat)
    requires p <= |s|
    ensures match ClosingQuote(s, p)
            case None => !Closed(Run(Literal, s, p))
            case Some(q) => Run(Literal, s, p) == Run(Code, s, q + 1)
    decreases |s| - p
  {
    if p < |s| && s[p] != '\"' {
      if s[p] != '\\' {
        RunThroughLiteral(s, p + 1);
      } else if p + 1 < |s| {
        RunThroughLiteral(s, p + 2);
        assert Run(Literal, s, p) == Run(Escaped, s, p + 1) == Run(Literal, s, p + 2);
      } else {
        assert Run(Literal, s, p) == Run(Escaped, s, p + 1) == Escaped;
      }
    }
  }

  /** A slash that starts no comment changes nothing. */
  lemma {:induction false} SlashIsCode(s: string, p: nat)
    requires p <= |s| && (p < |s| ==> s[p] != '/' && s[p] != '*')
    ensures Closed(Run(Slash, s, p)) <==> Closed(Run(Code, s, p))
  {
  }

  /**
   cJSON_Minify stays in front of the terminator exactly when one pass over the text, byte by byte, ends
   outside string literals and block comments.
   */
  lemma {:induction false} MinifyStaysInside(s: string, p: nat)
    requires p <= |s|
    ensures Minified(s, p).Some? <==> Closed(Run(Code, s, p))
    decreases |s| - p
  {
    if p < |s| {
      if StartsAt(s, p, '/', '/') {
        LineAdvances(s, p);
        assert LineEnd(s, p) == LineEnd(s, p + 1) == LineEnd(s, p + 2);
        RunThroughLine(s, p + 2);
        MinifyStaysInside(s, LineEnd(s, p));
        assert Run(Code, s, p) == Run(Slash, s, p + 1) == Run(Line, s, p + 2);
      } else if StartsAt(s, p, '/', '*') {
        assert BlockEnd(s, p) == BlockEnd(s, p + 1);
        RunThroughBlock(s, p + 1);
        assert Run(Code, s, p) == Run(Slash, s, p + 1) == Run(Star, s, p + 2);
        if BlockEnd(s, p).Some? {
          MinifyStaysInside(s, BlockEnd(s, p).value + 2);
        }
      } else if s[p] == '\"' {
        RunThroughLiteral(s, p + 1);
        if ClosingQuote(s, p + 1).Some? {
          MinifyStaysInside(s, ClosingQuote(s, p + 1).value + 1);
        }
      } else if s[p] == '/' {
        MinifyStaysInside(s, p + 1);
        SlashIsCode(s, p + 1);
      } else {
        MinifyStaysInside(s, p + 1);
      }
    }
  }

  // ---------------------------------------------------------------- which bytes are kept

  /** The codes of tab, line feed, carriage return and space. */
  const LAYOUT: set<nat> := {9, 10, 13, 32}

  /** What reading a byte adds to the output. A slash is held back until it is known not to start a comment. */
  function Emitted(state: State, c: char): string {
    match state
    case Code => if c == '/' || c as int in LAYOUT then "" else [c]
    case Slash => if c == '/' || c == '*' then "" else if c as int in LAYOUT then "/" else ['/', c]
    case Line => ""
    case Block => ""
    case Star => ""
    case Literal => [c]
    case Escaped => [c]
  }

  /** The output of the same reading from `p` on. */
  function Output(state: State, s: string, p: nat): string
    requires p <= |s|
    decreases |s| - p
  {
    if p == |s| then (if state == Slash then "/" else "")
    else Emitted(state, s[p]) + Output(Step(state, s[p]), s, p + 1)
  }

  /** Without output. */
  lemma {:induction false} SilentStep(state: State, s: string, p: nat)
    requires p < |s| && Emitted(state, s[p]) == ""
    ensures Output(state, s, p) == Output(Step(state, s[p]), s, p + 1)
  {
  }

  lemma {:induction false} OutputOfLine(s: string, p: nat)
    requires p <= |s|
    ensures Output(Line, s, p) == Output(Code, s, LineEnd(s, p))
    decreases |s| - p
  {
    if p < |s| {
      SilentStep(Line, s, p);
      if s[p] == '\n' {
        SilentStep(Code, s, p);
      } else {
        OutputOfLine(s, p + 1);
      }
    }
  }

  lemma {:induction false} OutputOfStar(s: string, p: nat)
    requires p < |s| && s[p] == '*' && BlockEnd(s, p).Some?
    ensures Output(Star, s, p + 1) == Output(Code, s, BlockEnd(s, p).value + 2)
    decreases |s| - p, 0
  {
    SilentStep(Star, s, p + 1);
    if s[p + 1] == '*' {
      OutputOfStar(s, p + 1);
    } else if s[p + 1] != '/' {
      assert BlockEnd(s, p) == BlockEnd(s, p + 1) == BlockEnd(s, p + 2);
      OutputOfBlock(s, p + 2);
    }
  }

  lemma {:induction false} OutputOfBlock(s: string, p: nat)
    requires p <= |s| && BlockEnd(s, p).Some?
    ensures Output(Block, s, p) == Output(Code, s, BlockEnd(s, p).value + 2)
    decreases |s| - p, 1
  {
    SilentStep(Block, s, p);
    if s[p] == '*' {
      OutputOfStar(s, p);
    } else {
      OutputOfBlock(s, p + 1);
    }
  }

  lemma {:induction false} LiteralStep(state: State, s: string, p: nat, q: nat)
    requires p < q <= |s| && (state == Literal || state == Escaped)
    ensures forall rest: string :: s[p..q] + rest == [s[p]] + (s[p + 1..q] + rest)
    ensures Output(state, s, p) == [s[p]] + Output(Step(state, s[p]), s, p + 1)
  {
    assert s[p..q] == [s[p]] + s[p + 1..q];
  }

  /** A literal is kept up to its closing quote. */
  lemma {:induction false} OutputOfLiteral(s: string, p: nat)
    requires p <= |s| && ClosingQuote(s, p).Some?
    ensures var q := ClosingQuote(s, p).value; Output(Literal, s, p) == s[p..q + 1] + Output(Code, s, q + 1)
    decreases |s| - p
  {
    hide Output;
    var q := ClosingQuote(s, p).value;
    LiteralStep(Literal, s, p, q + 1);
    if s[p] == '\"' {
      assert s[p + 1..q + 1] + Output(Code, s, q + 1) == Output(Code, s, q + 1);
    } else if s[p] == '\\' {
      LiteralStep(Escaped, s, p + 1, q + 1);
      OutputOfLiteral(s, p + 2);
    } else {
      OutputOfLiteral(s, p + 1);
    }
  }

  /** A slash in front of what starts no comment is kept. */
  lemma {:induction false} OutputOfSlash(s: string, p: nat)
    requires p <= |s| && (p < |s| ==> s[p] != '/' && s[p] != '*')
    ensures Output(Slash, s, p) == "/" + Output(Code, s, p)
  {
    if p < |s| {
      assert Step(Slash, s[p]) == Step(Code, s[p]) && Emitted(Slash, s[p]) == "/" + Emitted(Code, s[p]);
    }
  }

  lemma {:induction false} OutputEnds(s: string)
    ensures Output(Code, s, |s|) == ""
  {
  }

  lemma {:induction false} LineUnfolds(s: string, p: nat)
    requires StartsAt(s, p, '/', '/')
    ensures LineEnd(s, p) == LineEnd(s, p + 2)
  {
    assert LineEnd(s, p) == LineEnd(s, p + 1);
  }

  lemma {:induction false} BlockUnfolds(s: string, p: nat)
    requires StartsAt(s, p, '/', '*')
    ensures BlockEnd(s, p) == BlockEnd(s, p + 1)
  {
  }

  /** One step of the scan. */
  lemma {:induction false} MinifiedStep(s: string, p: nat)
    requires p < |s|
    ensures Removed(s[p]) ==> Minified(s, p) == Minified(s, p + 1)
    ensures StartsAt(s, p, '/', '/') ==> p < LineEnd(s, p) <= |s| && Minified(s, p) == Minified(s, LineEnd(s, p))
    ensures StartsAt(s, p, '/', '*') ==>
              match BlockEnd(s, p)
              case None => Minified(s, p) == None
              case Some(q) => p < q + 2 <= |s| && Minified(s, p) == Minified(s, q + 2)
    ensures s[p] == '\"' ==>
              match ClosingQuote(s, p + 1)
              case None => Minified(s, p) == None
              case Some(q) => Minified(s, p) == Prepend(s[p..q + 1], Minified(s, q + 1))
    ensures !Removed(s[p]) && !StartsAt(s, p, '/', '/') && !StartsAt(s, p, '/', '*') && s[p] != '\"' ==>
              Minified(s, p) == Prepend([s[p]], Minified(s, p + 1))
  {
    hide ClosingQuote, BlockEnd, LineEnd;
    if StartsAt(s, p, '/', '/') {
      LineAdvances(s, p);
    }
  }

  lemma {:induction false} MinifiedEnd(text: string)
    ensures Minified(text, |text|) == Some([])
  {
  }

  /** What is left is what the reading byte by byte gives out, if it ends outside of literals and block comments. */
  lemma {:induction false} MinifiedIsOutput(s: string, p: nat)
    requires p <= |s| && Minified(s, p).Some?
    ensures Minified(s, p) == Some(Output(Code, s, p))
    decreases |s| - p
  {
    hide Output, ClosingQuote, BlockEnd, LineEnd, Minified;
    if p == |s| {
      OutputEnds(s);
      MinifiedEnd(s);
      return;
    }
    MinifiedStep(s, p);
    if StartsAt(s, p, '/', '/') {
      LineAdvances(s, p);
      LineUnfolds(s, p);
      SilentStep(Code, s, p);
      SilentStep(Slash, s, p + 1);
      OutputOfLine(s, p + 2);
      MinifiedIsOutput(s, LineEnd(s, p));
    } else if StartsAt(s, p, '/', '*') {
      BlockUnfolds(s, p);
      SilentStep(Code, s, p);
      SilentStep(Slash, s, p + 1);
      OutputOfStar(s, p + 1);
      MinifiedIsOutput(s, BlockEnd(s, p).value + 2);
    } else if s[p] == '\"' {
      OutputUnfolds(s, p);
      OutputOfLiteral(s, p + 1);
      var q := ClosingQuote(s, p + 1).value;
      MinifiedIsOutput(s, q + 1);
      assert s[p..q + 1] + Output(Code, s, q + 1) == [s[p]] + (s[p + 1..q + 1] + Output(Code, s, q + 1));
    } else {
      OutputUnfolds(s, p);
      MinifiedIsOutput(s, p + 1);
      assert "" + Output(Step(Code, s[p]), s, p + 1) == Output(Step(Code, s[p]), s, p + 1);
      if s[p] == '/' {
        OutputOfSlash(s, p + 1);
      }
    }
  }

  lemma {:induction false} OutputUnfolds(s: string, p: nat)
    requires p < |s|
    ensures Output(Code, s, p) == Emitted(Code, s[p]) + Output(Step(Code, s[p]), s, p + 1)
  {
  }

  // ---------------------------------------------------------------- in place

  /** From the read pointer on, the block still holds the text and its terminator. */
  ghost predicate Unread(block: array<char>, json: nat, text: string)
    reads block
  {
    json <= |text| < block.Length && block[|text|] == '\0' && NulFree(text)
    && forall i :: json <= i < |text| ==> block[i] == text[i]
  }

  /** Nothing behind the terminator has been written. */
  ghost predicate TailIs(block: array<char>, text: string, tail: seq<char>)
    reads block
  {
    |text| < block.Length && block[|text| + 1..] == tail
  }

  /** Behind `front`, the text from `start` up to the read pointer has been moved to the write pointer. */
  ghost predicate Moved(block: array<char>, start: nat, json: nat, text: string, front: string, tail: seq<char>)
    reads block
  {
    && |front| <= start <= json && Unread(block, json, text) && TailIs(block, text, tail)
    && block[..|front|] == front && block[|front|..|front| + json - start] == text[start..json]
  }

  method SkipLine(block: array<char>, start: nat, ghost text: string) returns (json: nat)
    requires Unread(block, start, text)
    ensures json == LineEnd(text, start)
  {
    json := start;
    while block[json] != '\0' && block[json] != '\n'
      invariant start <= json <= |text| && LineEnd(text, start) == LineEnd(text, json)
      decreases |text| - json
    {
      json := json + 1;
    }
  }

  /** The loop over a block comment stops at its end, or at the terminator if it has none. */
  method SkipBlock(block: array<char>, start: nat, ghost text: string) returns (json: nat)
    requires Unread(block, start, text)
    ensures json == if BlockEnd(text, start).Some? then BlockEnd(text, start).value else |text|
  {
    json := start;
    while block[json] != '\0' && !(block[json] == '*' && block[json + 1] == '/')
      invariant start <= json <= |text| && BlockEnd(text, start) == BlockEnd(text, json)
      decreases |text| - json
    {
      json := json + 1;
    }
  }

  /**
   One byte moves from the read pointer to the write pointer. Moving the terminator takes the read pointer past it.
   */
  method MoveByte(block: array<char>, start: nat, json: nat, ghost text: string, into: nat,
                  ghost front: string, ghost tail: seq<char>)
    returns (over: bool)
    requires Moved(block, start, json, text, front, tail) && into == |front| + json - start
    modifies block
    ensures TailIs(block, text, tail) && (over <==> json == |text|)
    ensures !over ==> Moved(block, start, json + 1, text, front, tail)
  {
    over := block[json] == '\0';
    block[into] := block[json];
    if !over {
      assert text[start..json + 1] == text[start..json] + [text[json]];
    }
  }

  lemma {:induction false} ClosingStep(s: string, p: nat)
    requires p <= |s|
    ensures p == |s| ==> ClosingQuote(s, p) == None
    ensures p < |s| && s[p] == '\"' ==> ClosingQuote(s, p) == Some(p)
    ensures p < |s| && s[p] != '\"' && s[p] != '\\' ==> ClosingQuote(s, p) == ClosingQuote(s, p + 1)
    ensures p + 1 < |s| && s[p] == '\\' ==> ClosingQuote(s, p) == ClosingQuote(s, p + 2)
    ensures p + 1 == |s| && s[p] == '\\' ==> ClosingQuote(s, p) == None
  {
  }

  /** The loop body of the literal case: one byte, or a backslash and the byte behind it. */
  method CopyStep(block: array<char>, start: nat, json: nat, ghost text: string, into: nat,
                  ghost front: string, ghost tail: seq<char>)
    returns (over: bool, next: nat)
    requires Moved(block, start, json, text, front, tail) && into == |front| + json - start
    requires json < |text| && text[json] != '\"'
    modifies block
    ensures TailIs(block, text, tail) && (over ==> ClosingQuote(text, json) == None)
    ensures !over ==> json < next <= |text| && Moved(block, start, next, text, front, tail)
    ensures !over ==> ClosingQuote(text, json) == ClosingQuote(text, next)
  {
    hide ClosingQuote;
    ClosingStep(text, json);
    next := json;
    var escape := block[json] == '\\';
    over := MoveByte(block, start, json, text, into, front, tail);
    next := json + 1;
    if escape {
      over := MoveByte(block, start, next, text, into + 1, front, tail);
      next := next + 1;
    }
  }

  lemma {:induction false} MovedBounds(block: array<char>, start: nat, json: nat, text: string, front: string,
                                       tail: seq<char>)
    requires Moved(block, start, json, text, front, tail)
    ensures json <= |text| < block.Length && (block[json] == '\0' <==> json == |text|)
    ensures json < |text| ==> block[json] == text[json]
  {
  }

  /** The string literal case: everything up to and including the closing quote is moved. */
  method CopyString(block: array<char>, start: nat, out: nat, ghost text: string, ghost front: string,
                    ghost tail: seq<char>)
    returns (over: bool, json: nat, into: nat)
    requires Moved(block, start, start, text, front, tail) && out == |front| && start < |text| && text[start] == '\"'
    modifies block
    ensures TailIs(block, text, tail) && (over <==> ClosingQuote(text, start + 1) == None)
    ensures !over ==> ClosingQuote(text, start + 1) == Some(json - 1) && into == out + json - start
    ensures !over ==> start < json <= |text| && Moved(block, start, json, text, front, tail)
  {
    hide ClosingQuote, Moved, TailIs;
    MovedBounds(block, start, start, text, front, tail);
    over := MoveByte(block, start, start, text, out, front, tail);
    json, into := start + 1, out + 1;
    MovedBounds(block, start, json, text, front, tail);
    while block[json] != '\0' && block[json] != '\"'
      invariant start < json <= |text| < block.Length && into == out + json - start
      invariant Moved(block, start, json, text, front, tail)
      invariant ClosingQuote(text, start + 1) == ClosingQuote(text, json)
      decreases |text| - json
    {
      MovedBounds(block, start, json, text, front, tail);
      over, json := CopyStep(block, start, json, text, into, front, tail);
      if over {
        return;
      }
      into := out + json - start;
    }
    MovedBounds(block, start, json, text, front, tail);
    ClosingStep(text, json);
    over := MoveByte(block, start, json, text, into, front, tail);
    json, into := json + 1, into + 1;
  }

  /**
   The loop body of cJSON_Minify: something is skipped, or a literal or a byte is moved to the write pointer. The read
   pointer passes the terminator exactly when the literal or the block comment at it has no end.
   */
  method MinifyStep(block: array<char>, json: nat, into: nat, ghost text: string, ghost front: string,
                    ghost tail: seq<char>)
    returns (over: bool, next: nat, out: nat, ghost piece: string)
    requires Moved(block, json, json, text, front, tail) && into == |front| && json < |text|
    modifies block
    ensures TailIs(block, text, tail) && (over ==> Minified(text, json) == None)
    ensures !over ==> json < next <= |text| && out == |front + piece|
                      && Moved(block, next, next, text, front + piece, tail)
                      && Minified(text, json) == Prepend(piece, Minified(text, next))
  {
    hide ClosingQuote, BlockEnd, LineEnd, Minified;
    MinifiedStep(text, json);
    over, next, out, piece := false, json, into, "";
    if block[json] == ' ' || block[json] == '\t' || block[json] == '\r' || block[json] == '\n' {
      next := json + 1;
    } else if block[json] == '/' && block[json + 1] == '/' {
      next := SkipLine(block, json, text);
    } else if block[json] == '/' && block[json + 1] == '*' {
      next := SkipBlock(block, json, text);
      over := block[next] == '\0';
      next := next + 2;
    } else if block[json] == '\"' {
      over, next, out := CopyString(block, json, into, text, front, tail);
      if !over {
        piece := text[json..next];
      }
    } else {
      over := MoveByte(block, json, json, text, into, front, tail);
      out, next := into + 1, json + 1;
      piece := [text[json]];
    }
    if !over {
      PrependNothing(Minified(text, next));
      assert block[..|front + piece|] == front + piece;
    }
  }

  lemma {:induction false} PrependSome()
    ensures forall a: string, r: Option<string> :: Prepend(a, r).Some? <==> r.Some?
    ensures forall a: string, r: Option<string> :: r.Some? ==> Prepend(a, r) == Some(a + r.value)
  {
  }

  /**
   cJSON_Minify on a block that holds `text`. It returns whether the read pointer passed the terminator, which is
   where the run of the program ends in the model: exactly on the texts that leave a literal or a block comment open.
   Otherwise the block holds the minified text. The write pointer never overtakes the read pointer.
   */
  method MinifyInPlace(block: array<char>, ghost text: string) returns (over: bool)
    requires |text| < block.Length && block[..|text|] == text && block[|text|] == '\0' && NulFree(text)
    modifies block
    ensures over <==> !Closed(Run(Code, text, 0))
    ensures over <==> Minified(text, 0) == None
    ensures !over ==> var m := Minified(text, 0).value;
                      |m| <= |text| && block[..|m|] == m && block[|m|] == '\0'
    ensures !over ==> Minified(text, 0).value == Output(Code, text, 0)
    ensures block[|text| + 1..] == old(block[|text| + 1..])
  {
    hide Minified, Prepend, Run, Closed;
    ghost var written, tail := "", block[|text| + 1..];
    var json, into := 0, 0;
    over := false;
    MinifyStaysInside(text, 0);
    PrependNothing(Minified(text, 0));
    PrependSome();
    while block[json] != '\0'
      invariant json <= |text| && |written| == into && Moved(block, json, json, text, written, tail)
      invariant Minified(text, 0) == Prepend(written, Minified(text, json))
      decreases |text| - json
    {
      ghost var piece;
      over, json, into, piece := MinifyStep(block, json, into, text, written, tail);
      if over {
        return;
      }
      PrependAssociates(written, piece, Minified(text, json));
      written := written + piece;
    }
    MinifiedEnd(text);
    MinifiedIsOutput(text, 0);
    block[into] := '\0';
    assert block[..into] == written == written + [];
  }
}
