/** ConfigStore_Save, and exactly which configurations it saves so that ConfigStore_Load restores them. */
module ConfigRoundTrip {
  import opened Prelude
  import opened TextUtils
  import opened ConfigValidation
  import opened ConfigStore

  function Spaces(n: nat): (r: string)
    ensures |r| == n && Blank(r) && forall i :: 0 <= i < n ==> r[i] == ' '
  {
    if n == 0 then "" else " " + Spaces(n - 1)
  }

  /** "%-20s": padded on the right. */
  function Padded(name: string): string {
    name + Spaces(if |name| < 20 then 20 - |name| else 0)
  }

  /** One line of the file, without its newline. */
  function SavedLine(c: Config, p: Param, floats: Floats): string {
    Padded(Name(p)) + " = " + Serialized(c, p, floats) + "\r"
  }

  function SavedLines(c: Config, ps: seq<Param>, floats: Floats): seq<string> {
    if ps == [] then [] else [SavedLine(c, ps[0], floats)] + SavedLines(c, ps[1..], floats)
  }

  /** "%f" writes a short text on one line. */
  ghost predicate Plain(floats: Floats) {
    forall r :: |floats.format(r)| <= 100 && NulFree(floats.format(r)) && '\n' !in floats.format(r)
  }

  /** The fields that are C strings in arrays of t_Config. */
  predicate Stored(c: Config) {
    && Bounded(c) && NulFree(c.deviceName) && NulFree(c.serverAddr) && NulFree(c.serverPort)
    && NulFree(c.apn) && NulFree(c.apnUser) && NulFree(c.apnPass) && NulFree(c.gpsLogFile)
  }

  lemma {:induction false} NameBytes(p: Param)
    ensures 0 < |Name(p)| < 20 && forall i :: 0 <= i < |Name(p)| ==> Name(p)[i] == '_' || 'a' <= Name(p)[i] <= 'z'
  {
  }

  lemma {:induction false} NameShape(p: Param)
    ensures 0 < |Name(p)| < 20 && Trimmed(Name(p)) && NulFree(Name(p)) && '\n' !in Name(p) && '=' !in Name(p)
  {
    hide Name;
    NameBytes(p);
  }

  lemma {:induction false} ShortLine(c: Config, p: Param, floats: Floats)
    requires Stored(c) && Plain(floats)
    ensures |SavedLine(c, p, floats)| < 254 && NulFree(SavedLine(c, p, floats))
  {
    NameShape(p);
    assert NulFree(Serialized(c, p, floats)) && |Serialized(c, p, floats)| < 128;
  }

  lemma {:induction false} SavedAt(c: Config, ps: seq<Param>, floats: Floats, i: nat)
    requires i < |ps|
    ensures |SavedLines(c, ps, floats)| == |ps| && SavedLines(c, ps, floats)[i] == SavedLine(c, ps[i], floats)
  {
    hide SavedLine;
    if i > 0 {
      SavedAt(c, ps[1..], floats, i - 1);
    } else if |ps| > 1 {
      SavedAt(c, ps[1..], floats, 0);
    }
  }

  // ---------------------------------------------------------------- saving

  /** What becomes of a write: how many bytes it writes at most, and whether it reports an error all the same. */
  datatype Fate = Fate(room: nat, failed: bool)

  /** Every write fails at once. */
  const FULL_DISK: nat -> Fate := _ => Fate(0, true)

  /** The bytes that a write of `size` bytes leaves in the file. */
  function Landed(fate: Fate, size: nat): (n: nat)
    ensures n <= size
  {
    if fate.room < size then fate.room else size
  }

  /** A file that is open for writing, truncated before. The fates of its writes are fixed in advance, any of them. */
  class OutFile {
    const fates: nat -> Fate
    var data: string
    var writes: nat

    constructor (fates: nat -> Fate)
      ensures this.fates == fates && data == "" && writes == 0
    {
      this.fates, data, writes := fates, "", 0;
    }

    /** API_FS_Write: the number of bytes written, or an error, after which any part of them may have been written. */
    method Write(bytes: string) returns (k: int)
      modifies this
      ensures writes == old(writes) + 1
      ensures var fate := fates(old(writes));
              && data == old(data) + bytes[..Landed(fate, |bytes|)]
              && k == if fate.failed then -1 else Landed(fate, |bytes|)
    {
      var fate := fates(writes);
      var n := Landed(fate, |bytes|);
      data := data + bytes[..n];
      writes := writes + 1;
      k := if fate.failed then -1 else n;
    }
  }

  /** What the file holds after the first `n` lines, each written up to where its write is cut. */
  function Written(lines: seq<string>, fates: nat -> Fate, n: nat): string
    requires n <= |lines|
  {
    if n == 0 then ""
    else
      var line := lines[n - 1] + "\n";
      Written(lines, fates, n - 1) + line[..Landed(fates(n - 1), |line|)]
  }

  /** No write of the first `n` lines is cut. */
  predicate Complete(lines: seq<string>, fates: nat -> Fate, n: nat)
    requires n <= |lines|
  {
    forall i :: 0 <= i < n ==> |lines[i]| + 1 <= fates(i).room
  }

  lemma {:induction false} UnlinesUnfolds(lines: seq<string>)
    ensures Unlines(lines) == if lines == [] then "" else lines[0] + "\n" + Unlines(lines[1..])
  {
  }

  lemma {:induction false} UnlinesLast(lines: seq<string>, line: string)
    ensures Unlines(lines + [line]) == Unlines(lines) + (line + "\n")
  {
    hide Unlines;
    var all, last := lines + [line], line + "\n";
    UnlinesUnfolds(all);
    UnlinesUnfolds(lines);
    if lines == [] {
      assert all[0] == line && all[1..] == [];
      UnlinesUnfolds(all[1..]);
      assert last + "" == last == "" + last;
    } else {
      var head, rest := lines[0] + "\n", Unlines(lines[1..]);
      assert all[0] == lines[0] && all[1..] == lines[1..] + [line];
      UnlinesLast(lines[1..], line);
      assert head + (rest + last) == head + rest + last;
    }
  }

  lemma {:induction false} UnlinesMore(lines: seq<string>, n: nat)
    requires n < |lines|
    ensures Unlines(lines[..n + 1]) == Unlines(lines[..n]) + (lines[n] + "\n")
  {
    UnlinesLast(lines[..n], lines[n]);
    assert lines[..n + 1] == lines[..n] + [lines[n]];
  }

  /** Whatever is cut off is missing from the text. */
  lemma {:induction false} WrittenLength(lines: seq<string>, fates: nat -> Fate, n: nat)
    requires n <= |lines|
    ensures |Written(lines, fates, n)| <= |Unlines(lines[..n])|
    ensures Complete(lines, fates, n) ==> Written(lines, fates, n) == Unlines(lines[..n])
    ensures |Written(lines, fates, n)| == |Unlines(lines[..n])| ==> Complete(lines, fates, n)
  {
    hide Unlines;
    if n == 0 {
      UnlinesUnfolds(lines[..0]);
    } else {
      WrittenLength(lines, fates, n - 1);
      UnlinesMore(lines, n - 1);
      var line := lines[n - 1] + "\n";
      assert line[..|line|] == line;
    }
  }

  /** The text is that of all lines exactly when nothing was cut. */
  lemma {:induction false} WrittenWhole(lines: seq<string>, fates: nat -> Fate)
    ensures Complete(lines, fates, |lines|) <==> Written(lines, fates, |lines|) == Unlines(lines)
  {
    hide *;
    WrittenLength(lines, fates, |lines|);
    assert lines[..|lines|] == lines;
  }

  /** When every write is cut at once, nothing is written. */
  lemma {:induction false} WrittenNothing(lines: seq<string>, n: nat)
    requires n <= |lines|
    ensures Written(lines, FULL_DISK, n) == ""
    ensures n > 0 ==> !Complete(lines, FULL_DISK, n)
  {
    if n > 0 {
      WrittenNothing(lines, n - 1);
      assert |lines[0]| + 1 > FULL_DISK(0).room;
    }
  }

  lemma {:induction false} NulFreeCut(a: string, b: string)
    requires NulFree(a) && NulFree(b)
    ensures forall k :: 0 <= k <= |b| + 1 ==> NulFree(a + (b + "\n")[..k])
  {
  }

  lemma {:induction false} NothingSaved()
    ensures NulFree("")
  {
  }

  /** The loop of ConfigStore_Save: a failed write is passed over. No line reaches the end of its buffer. */
  method SaveLines(store: Store, file: OutFile, floats: Floats)
    requires Stored(store.Contents()) && Plain(floats) && file.data == "" && file.writes == 0
    modifies file
    ensures var lines := SavedLines(store.Contents(), PARAMS, floats);
            |lines| == |PARAMS| && file.data == Written(lines, file.fates, |lines|) && NulFree(file.data)
  {
    hide SavedLine, SavedLines, Stored, Plain, NulFree, Landed;
    ghost var c := store.Contents();
    ghost var lines := SavedLines(c, PARAMS, floats);
    NothingSaved();
    SavedAt(c, PARAMS, floats, 0);
    for i := 0 to |PARAMS|
      invariant file.writes == i && file.data == Written(lines, file.fates, i) && NulFree(file.data)
    {
      var line := SavedLine(store.Contents(), PARAMS[i], floats) + "\n";
      ShortLine(c, PARAMS[i], floats);
      assert |line| < MAX_LINE_LENGTH - 1;
      SavedAt(c, PARAMS, floats, i);
      NulFreeCut(file.data, SavedLine(c, PARAMS[i], floats));
      var k := file.Write(line);
      if k != |line| {
        continue;
      }
    }
  }

  /**
   ConfigStore_Save. The answer is yes exactly when the file opens, whatever becomes of the writes; the file holds all
   lines exactly when no write is cut.
   */
  method Save(store: Store, file: OutFile?, floats: Floats) returns (ok: bool)
    requires Stored(store.Contents()) && Plain(floats) && (file != null ==> file.data == "" && file.writes == 0)
    modifies if file == null then {} else {file}
    ensures ok <==> file != null
    ensures file != null ==>
              var lines := SavedLines(store.Contents(), PARAMS, floats);
              && |lines| == |PARAMS| && file.data == Written(lines, file.fates, |lines|) && NulFree(file.data)
              && (Complete(lines, file.fates, |lines|) <==> file.data == Unlines(lines))
  {
    hide SavedLines, Stored, Plain, NulFree, Unlines, Written, Complete;
    if file == null {
      return false;
    }
    SaveLines(store, file, floats);
    WrittenWhole(SavedLines(store.Contents(), PARAMS, floats), file.fates);
    ok := true;
  }

  /** On a full disk nothing is saved, and the answer is yes; loading that file changes no configuration. */
  method SaveOnFullDisk(store: Store, floats: Floats) returns (ok: bool, file: OutFile)
    requires Stored(store.Contents()) && Plain(floats)
    ensures ok && file.data == "" != Unlines(SavedLines(store.Contents(), PARAMS, floats))
    ensures forall start :: ApplyLines(start, Kept(Lines(file.data)), floats) == start
  {
    hide SavedLines, Stored, Plain, NulFree, Unlines, Written, Complete;
    ghost var lines := SavedLines(store.Contents(), PARAMS, floats);
    file := new OutFile(FULL_DISK);
    ok := Save(store, file, floats);
    WrittenNothing(lines, |lines|);
    NoLine();
  }

  // ---------------------------------------------------------------- what a saved line does when it is loaded

  /** The configuration after the line of `p` was loaded again. */
  function Settled(start: Config, c: Config, p: Param, floats: Floats): Config {
    var updated := Accepted(start, p, Trim(Serialized(c, p, floats)), floats);
    if updated.Some? then updated.value else start
  }

  function AllSettled(start: Config, c: Config, ps: seq<Param>, floats: Floats): Config
    decreases |ps|
  {
    if ps == [] then start else AllSettled(Settled(start, c, ps[0], floats), c, ps[1..], floats)
  }

  lemma {:induction false} LeftBlank(s: string) returns (before: string)
    ensures s == before + TrimLeft(s) && Blank(before)
  {
    if s != "" && IsSpace(s[0]) {
      var more := LeftBlank(s[1..]);
      before := [s[0]] + more;
      assert s == [s[0]] + s[1..] == before + TrimLeft(s);
    } else {
      before := "";
    }
  }

  lemma {:induction false} RightBlank(s: string) returns (after: string)
    ensures s == TrimRight(s) + after && Blank(after)
  {
    if s != "" && IsSpace(s[|s| - 1]) {
      var more := RightBlank(s[..|s| - 1]);
      after := more + [s[|s| - 1]];
      assert s == s[..|s| - 1] + [s[|s| - 1]] == TrimRight(s) + after;
    } else {
      after := "";
    }
  }

  /** A text is its trimmed part between two blank parts. */
  lemma {:induction false} Surroundings(s: string) returns (before: string, after: string)
    ensures s == before + Trim(s) + after && Blank(before) && Blank(after)
  {
    before := LeftBlank(s);
    after := RightBlank(TrimLeft(s));
  }

  /** Surrounding white space does not matter. */
  lemma {:induction false} TrimAgain(a: string, s: string, b: string)
    requires Blank(a) && Blank(b)
    ensures Trim(a + s + b) == Trim(s)
  {
    hide TrimLeft, TrimRight, Trim;
    var before, after := Surroundings(s);
    assert a + s + b == (a + before) + Trim(s) + (after + b);
    TrimTrims(s);
    TrimMeans(a + before, Trim(s), after + b);
  }

  lemma {:induction false} LookupName(p: Param)
    ensures Lookup(Name(p)) == Some(p)
  {
    NamesDiffer(p);
  }

  /** Loading a saved line offers the trimmed text of the field to its validator. */
  lemma {:induction false} LineSettles(start: Config, c: Config, p: Param, floats: Floats)
    ensures ApplyLine(start, SavedLine(c, p, floats), floats) == Settled(start, c, p, floats)
  {
    hide Trim, Accepted, Serialized, Lookup, Name;
    NameShape(p);
    var line, value := SavedLine(c, p, floats), Serialized(c, p, floats);
    var head := Padded(Name(p)) + " ";
    var tail := " " + value + "\r";
    assert line == head + "=" + tail;
    IndexIs(line, '=', |head|);
    assert line[..|head|] == head && line[|head| + 1..] == tail;
    var spaces := Spaces(20 - |Name(p)|) + " ";
    assert head == "" + Name(p) + spaces;
    TrimMeans("", Name(p), spaces);
    TrimAgain(" ", value, "\r");
    LookupName(p);
  }

  lemma {:induction false} LinesSettle(start: Config, c: Config, ps: seq<Param>, floats: Floats)
    ensures ApplyLines(start, SavedLines(c, ps, floats), floats) == AllSettled(start, c, ps, floats)
    decreases |ps|
  {
    hide ApplyLine, SavedLine, Settled;
    if ps != [] {
      LineSettles(start, c, ps[0], floats);
      LinesSettle(Settled(start, c, ps[0], floats), c, ps[1..], floats);
    }
  }

  // ---------------------------------------------------------------- which fields come back

  predicate TextParam(p: Param) {
    p == DeviceName || p == ServerAddr || p == ServerPort || p == Apn || p == ApnUser || p == ApnPass || p == GpsLogFile
  }

  /** The text of a string field; the other fields have none. */
  function FieldText(c: Config, p: Param): string {
    match p
    case DeviceName => c.deviceName
    case ServerAddr => c.serverAddr
    case ServerPort => c.serverPort
    case Apn => c.apn
    case ApnUser => c.apnUser
    case ApnPass => c.apnPass
    case GpsLogFile => c.gpsLogFile
    case _ => ""
  }

  /** Two configurations agree on a field. */
  predicate SameField(a: Config, b: Config, p: Param) {
    match p
    case ServerProtocol => a.protocol == b.protocol
    case Level => a.logLevel == b.logLevel
    case Output => a.logOutput == b.logOutput
    case GpsUere => a.gpsUere == b.gpsUere
    case GpsLogs => a.gpsLogging == b.gpsLogging
    case GpsPrintPos => a.gpsPrintPos == b.gpsPrintPos
    case _ => FieldText(a, p) == FieldText(b, p)
  }

  lemma {:induction false} SameFields(a: Config, b: Config)
    requires forall p :: SameField(a, b, p)
    ensures a == b
  {
    assert SameField(a, b, DeviceName) && SameField(a, b, ServerAddr) && SameField(a, b, ServerPort)
           && SameField(a, b, ServerProtocol);
    assert SameField(a, b, Apn) && SameField(a, b, ApnUser) && SameField(a, b, ApnPass) && SameField(a, b, Level)
           && SameField(a, b, Output);
    assert SameField(a, b, GpsUere) && SameField(a, b, GpsLogs) && SameField(a, b, GpsLogFile)
           && SameField(a, b, GpsPrintPos);
  }

  /** What its validator demands of the text of a string field. */
  predicate ValidText(p: Param, value: string) {
    match p
    case ServerPort => PortText(value)
    case ApnUser => true
    case ApnPass => true
    case _ => value != ""
  }

  /**
   A field can be saved and loaded again: a string is trimmed, on one line and accepted by its validator,
   the log level is not NONE, and the float survives its conversion to text and back.
   */
  predicate Restorable(c: Config, p: Param, floats: Floats) {
    if TextParam(p) then Trimmed(FieldText(c, p)) && '\n' !in FieldText(c, p) && ValidText(p, FieldText(c, p))
    else if p == Level then c.logLevel != LevelNone
    else if p == GpsUere then 0.0 < c.gpsUere < 100.0 && floats.parse(Trim(floats.format(c.gpsUere))) == c.gpsUere
    else true
  }

  lemma {:induction false} TrimmedStays(s: string)
    requires Trimmed(s)
    ensures Trim(s) == s
  {
    assert "" + s + "" == s;
    TrimMeans("", s, "");
  }

  predicate LowerCase(s: string) {
    forall i :: 0 <= i < |s| ==> ToLower(s[i]) == s[i]
  }

  /** Among lower-case words only the word itself is meant. */
  lemma {:induction false} SaysLiteral(value: string, words: seq<string>)
    requires LowerCase(value) && forall i :: 0 <= i < |words| ==> LowerCase(words[i])
    ensures Says(value, words) <==> value in words
  {
    assert Lower(value) == value;
    forall i | 0 <= i < |words| ensures Lower(words[i]) == words[i] {
    }
    if value in words {
      var i :| 0 <= i < |words| && words[i] == value;
      assert Lower(value) == Lower(words[i]);
    }
  }

  lemma {:induction false} LevelWords()
    ensures LevelOf("") == None && LevelOf("error") == Some(LevelError) && LevelOf("warn") == Some(LevelWarn)
    ensures LevelOf("info") == Some(LevelInfo) && LevelOf("debug") == Some(LevelDebug)
  {
    hide Says;
    forall value | value in ["", "error", "warn", "info", "debug"]
      ensures Says(value, ["none"]) <==> value == "none"
      ensures Says(value, ["error"]) <==> value == "error"
      ensures Says(value, ["warn", "warning"]) <==> value in ["warn", "warning"]
      ensures Says(value, ["info"]) <==> value == "info"
      ensures Says(value, ["debug"]) <==> value == "debug"
    {
      SaysLiteral(value, ["none"]);
      SaysLiteral(value, ["error"]);
      SaysLiteral(value, ["warn", "warning"]);
      SaysLiteral(value, ["info"]);
      SaysLiteral(value, ["debug"]);
    }
  }

  lemma {:induction false} OtherWords()
    ensures ProtocolOf("http") == Some(Http) && ProtocolOf("https") == Some(Https)
    ensures OutputOf("uart") == Some(Uart) && OutputOf("trace") == Some(Trace) && OutputOf("file") == Some(ToFile)
    ensures SwitchOf("true") == Some(true) && SwitchOf("false") == Some(false)
  {
    hide Says;
    SaysLiteral("http", ["http"]);
    SaysLiteral("https", ["http"]);
    SaysLiteral("https", ["https"]);
    SaysLiteral("uart", ["uart"]);
    SaysLiteral("trace", ["uart"]);
    SaysLiteral("trace", ["trace"]);
    SaysLiteral("file", ["uart"]);
    SaysLiteral("file", ["trace"]);
    SaysLiteral("file", ["file"]);
    SaysLiteral("true", OFF);
    SaysLiteral("true", ON);
    SaysLiteral("false", OFF);
  }

  /** The words that the serializers write are understood by the validators. */
  lemma {:induction false} WordsUnderstood()
    ensures ProtocolOf("http") == Some(Http) && ProtocolOf("https") == Some(Https)
    ensures LevelOf("") == None && LevelOf("error") == Some(LevelError) && LevelOf("warn") == Some(LevelWarn)
    ensures LevelOf("info") == Some(LevelInfo) && LevelOf("debug") == Some(LevelDebug)
    ensures OutputOf("uart") == Some(Uart) && OutputOf("trace") == Some(Trace) && OutputOf("file") == Some(ToFile)
    ensures SwitchOf("true") == Some(true) && SwitchOf("false") == Some(false)
  {
    hide *;
    LevelWords();
    OtherWords();
  }

  lemma {:induction false} WordsTrimmed(c: Config, p: Param, floats: Floats)
    requires !TextParam(p) && p != GpsUere
    ensures Trim(Serialized(c, p, floats)) == Serialized(c, p, floats)
  {
    TrimmedStays(Serialized(c, p, floats));
  }

  /** A restorable field is restored by its line; another one is not, if it was different before. */
  lemma {:induction false} OwnLine(start: Config, c: Config, p: Param, floats: Floats)
    requires Stored(c)
    requires TextParam(p) ==> '\n' !in FieldText(c, p)
    ensures Restorable(c, p, floats) ==> SameField(Settled(start, c, p, floats), c, p)
    ensures !Restorable(c, p, floats) && !SameField(start, c, p) ==> !SameField(Settled(start, c, p, floats), c, p)
  {
    hide Trim, Trimmed, ProtocolOf, LevelOf, OutputOf, SwitchOf, PortText;
    WordsUnderstood();
    if TextParam(p) {
      var text := FieldText(c, p);
      assert text == Serialized(c, p, floats);
      TrimTrims(text);
      if Trimmed(text) {
        TrimmedStays(text);
      }
    } else if p != GpsUere {
      WordsTrimmed(c, p, floats);
    }
  }

  /** The line of a field touches no other field. */
  lemma {:induction false} OtherLine(start: Config, c: Config, p: Param, q: Param, floats: Floats)
    requires p != q
    ensures SameField(Settled(start, c, p, floats), start, q)
  {
    hide Trim, ProtocolOf, LevelOf, OutputOf, SwitchOf, PortText;
  }

  lemma {:induction false} FieldSettled(start: Config, c: Config, ps: seq<Param>, p: Param, floats: Floats)
    requires Stored(c) && (TextParam(p) ==> '\n' !in FieldText(c, p))
    requires forall i, j :: 0 <= i < j < |ps| ==> ps[i] != ps[j]
    ensures p !in ps ==> SameField(AllSettled(start, c, ps, floats), start, p)
    ensures p in ps && Restorable(c, p, floats) ==> SameField(AllSettled(start, c, ps, floats), c, p)
    ensures !Restorable(c, p, floats) && !SameField(start, c, p) ==> !SameField(AllSettled(start, c, ps, floats), c, p)
    decreases |ps|
  {
    hide Settled, Restorable, Stored, TextParam;
    if ps != [] {
      var next := Settled(start, c, ps[0], floats);
      FieldSettled(next, c, ps[1..], p, floats);
      if ps[0] == p {
        OwnLine(start, c, p, floats);
      } else {
        OtherLine(start, c, ps[0], p, floats);
      }
    }
  }

  // ---------------------------------------------------------------- the file that was saved

  /** What loading makes of a saved configuration, from any configuration before. */
  function Reloaded(start: Config, c: Config, floats: Floats): Config {
    ApplyLines(start, Kept(Lines(Unlines(SavedLines(c, PARAMS, floats)))), floats)
  }

  lemma {:induction false} NoNewlineWritten(c: Config, p: Param, floats: Floats)
    requires Plain(floats) && (TextParam(p) ==> '\n' !in FieldText(c, p))
    ensures '\n' !in Serialized(c, p, floats)
  {
  }

  lemma {:induction false} OneLineEach(c: Config, p: Param, floats: Floats)
    requires Plain(floats) && (TextParam(p) ==> '\n' !in FieldText(c, p))
    ensures '\n' !in SavedLine(c, p, floats)
  {
    hide Name, Serialized;
    NameShape(p);
    NoNewlineWritten(c, p, floats);
  }

  lemma {:induction false} SavedLinesShort(c: Config, ps: seq<Param>, floats: Floats)
    requires Stored(c) && Plain(floats) && forall p :: TextParam(p) ==> '\n' !in FieldText(c, p)
    ensures forall i :: 0 <= i < |SavedLines(c, ps, floats)| ==>
              |SavedLines(c, ps, floats)[i]| < 255 && '\n' !in SavedLines(c, ps, floats)[i]
  {
    hide SavedLine, Stored, Plain;
    if ps != [] {
      SavedLinesShort(c, ps[1..], floats);
      ShortLine(c, ps[0], floats);
      OneLineEach(c, ps[0], floats);
    }
  }

  /** Without newlines in the fields, every field is settled by its own line. */
  lemma {:induction false} ReloadedSettled(start: Config, c: Config, floats: Floats)
    requires Stored(c) && Plain(floats) && forall p :: TextParam(p) ==> '\n' !in FieldText(c, p)
    ensures Reloaded(start, c, floats) == AllSettled(start, c, PARAMS, floats)
  {
    var lines := SavedLines(c, PARAMS, floats);
    SavedLinesShort(c, PARAMS, floats);
    LinesOfUnlines(lines);
    AllKept(lines);
    LinesSettle(start, c, PARAMS, floats);
  }

  lemma {:induction false} NoNewlineAccepted(start: Config, entry: Param, value: string, p: Param, floats: Floats)
    requires '\n' !in value && Accepted(start, entry, value, floats).Some?
    ensures var d := Accepted(start, entry, value, floats).value;
            FieldText(d, p) == FieldText(start, p) || '\n' !in FieldText(d, p)
  {
    hide PortText, ProtocolOf, LevelOf, OutputOf, SwitchOf;
  }

  lemma {:induction false} NoNewlineLine(start: Config, line: string, p: Param, floats: Floats)
    requires '\n' !in line
    ensures FieldText(ApplyLine(start, line, floats), p) == FieldText(start, p)
            || '\n' !in FieldText(ApplyLine(start, line, floats), p)
  {
    hide Trim, Lookup, Accepted, FieldText;
    var k := IndexOf(line, '=');
    if k < |line| {
      var value := Trim(line[k + 1..]);
      TrimTrims(line[k + 1..]);
      var entry := Lookup(Trim(line[..k]));
      if entry.Some? && Accepted(start, entry.value, value, floats).Some? {
        NoNewlineAccepted(start, entry.value, value, p, floats);
      }
    }
  }

  /** A loaded text field has no newline: lines have none. */
  lemma {:induction false} NoNewlineLoaded(start: Config, lines: seq<string>, p: Param, floats: Floats)
    requires forall i :: 0 <= i < |lines| ==> '\n' !in lines[i]
    ensures FieldText(ApplyLines(start, lines, floats), p) == FieldText(start, p)
            || '\n' !in FieldText(ApplyLines(start, lines, floats), p)
    decreases |lines|
  {
    hide ApplyLine, FieldText;
    if lines != [] {
      NoNewlineLine(start, lines[0], p, floats);
      NoNewlineLoaded(ApplyLine(start, lines[0], floats), lines[1..], p, floats);
    }
  }

  /** A configuration that differs in one field. */
  function Changed(c: Config, p: Param): (d: Config)
    ensures !SameField(d, c, p)
  {
    var text := if FieldText(c, p) == "" then "x" else "";
    match p
    case DeviceName => c.(deviceName := text)
    case ServerAddr => c.(serverAddr := text)
    case ServerPort => c.(serverPort := text)
    case ServerProtocol => c.(protocol := if c.protocol == Http then Https else Http)
    case Apn => c.(apn := text)
    case ApnUser => c.(apnUser := text)
    case ApnPass => c.(apnPass := text)
    case Level => c.(logLevel := if c.logLevel == LevelNone then LevelInfo else LevelNone)
    case Output => c.(logOutput := if c.logOutput == Uart then Trace else Uart)
    case GpsUere => c.(gpsUere := c.gpsUere + 1.0)
    case GpsLogs => c.(gpsLogging := !c.gpsLogging)
    case GpsLogFile => c.(gpsLogFile := text)
    case GpsPrintPos => c.(gpsPrintPos := !c.gpsPrintPos)
  }

  lemma {:induction false} ParamsDistinct()
    ensures forall i, j :: 0 <= i < j < |PARAMS| ==> PARAMS[i] != PARAMS[j]
  {
  }

  /** If every field is restorable, loading restores the configuration, whatever it was before. */
  lemma {:induction false} RestorableRestored(start: Config, c: Config, floats: Floats)
    requires Stored(c) && Plain(floats) && forall p :: Restorable(c, p, floats)
    ensures Reloaded(start, c, floats) == c
  {
    hide Stored, Plain, Reloaded, AllSettled, SameField;
    forall p | TextParam(p) ensures '\n' !in FieldText(c, p) {
      assert Restorable(c, p, floats);
    }
    ReloadedSettled(start, c, floats);
    ParamsDistinct();
    forall p ensures SameField(Reloaded(start, c, floats), c, p) {
      AllListed(p);
      assert Restorable(c, p, floats);
      FieldSettled(start, c, PARAMS, p, floats);
    }
    SameFields(Reloaded(start, c, floats), c);
  }

  lemma {:induction false} ReloadedIs(start: Config, c: Config, floats: Floats)
    ensures Reloaded(start, c, floats) == ApplyLines(start, Kept(Lines(Unlines(SavedLines(c, PARAMS, floats)))), floats)
  {
  }

  lemma {:induction false} KeptLines(lines: seq<string>)
    requires forall i :: 0 <= i < |lines| ==> '\n' !in lines[i]
    ensures forall i :: 0 <= i < |Kept(lines)| ==> '\n' !in Kept(lines)[i]
  {
    KeptMeans(lines, []);
    forall i | 0 <= i < |Kept(lines)| ensures '\n' !in Kept(lines)[i] {
      assert Kept(lines)[i] in Kept(lines);
    }
  }

  /** A field that is not restorable is lost if it was different before loading. */
  lemma {:induction false} NotRestored(c: Config, p: Param, floats: Floats) returns (start: Config)
    requires Stored(c) && Plain(floats) && !Restorable(c, p, floats)
    ensures Reloaded(start, c, floats) != c
  {
    hide Stored, Plain, Reloaded, AllSettled, Restorable;
    var text := Unlines(SavedLines(c, PARAMS, floats));
    if q :| TextParam(q) && '\n' in FieldText(c, q) {
      start := Changed(c, q);
      UnlinesOfLines(text);
      KeptLines(Lines(text));
      NoNewlineLoaded(start, Kept(Lines(text)), q, floats);
      ReloadedIs(start, c, floats);
    } else {
      start := Changed(c, p);
      ReloadedSettled(start, c, floats);
      ParamsDistinct();
      FieldSettled(start, c, PARAMS, p, floats);
    }
  }

  /**
   Save, then Load, restores the configuration from every starting configuration exactly when every field is
   restorable.
   */
  lemma {:induction false} SaveThenLoad(c: Config, floats: Floats)
    requires Stored(c) && Plain(floats)
    ensures (forall start :: Reloaded(start, c, floats) == c) <==> forall p :: Restorable(c, p, floats)
  {
    hide *;
    if forall p :: Restorable(c, p, floats) {
      forall start ensures Reloaded(start, c, floats) == c {
        RestorableRestored(start, c, floats);
      }
    } else {
      var p :| !Restorable(c, p, floats);
      var start := NotRestored(c, p, floats);
    }
  }

  /** The log level NONE is saved as an empty text, which is not accepted. */
  lemma {:induction false} NoneIsLost(c: Config, floats: Floats) returns (start: Config)
    requires Stored(c) && Plain(floats) && c.logLevel == LevelNone
    ensures Reloaded(start, c, floats) != c
  {
    hide Stored, Plain, Reloaded;
    start := NotRestored(c, Level, floats);
  }

  /** The two programs together: if no write is cut, a second store takes over what the first one saved. */
  method SaveAndLoad(store: Store, other: Store, fates: nat -> Fate, floats: Floats) returns (ok: bool)
    requires Stored(store.Contents()) && Plain(floats) && store != other
    requires forall p :: Restorable(store.Contents(), p, floats)
    modifies other
    ensures var lines := SavedLines(store.Contents(), PARAMS, floats);
            ok && Complete(lines, fates, |lines|) ==> other.Contents() == store.Contents()
  {
    hide *;
    ghost var c, start := store.Contents(), other.Contents();
    var out := new OutFile(fates);
    ok := Save(store, out, floats);
    var file := new File(out.data);
    ghost var saved := SavedLines(c, PARAMS, floats);
    ghost var lines;
    ok, lines := Load(other, file, floats);
    if ok && Complete(saved, fates, |saved|) {
      RestorableRestored(start, c, floats);
      ReloadedIs(start, c, floats);
    }
  }

  // ---------------------------------------------------------------- the keys and words of the file

  lemma {:induction false} FirstIndex(a: string, c: char, b: string)
    requires c !in a
    ensures IndexOf(a + [c] + b, c) == |a|
  {
    IndexIs(a + [c] + b, c, |a|);
  }

  /** A line `key=value`, both without surrounding white space. */
  lemma {:induction false} KeyLine(c: Config, key: string, value: string, floats: Floats)
    requires Trimmed(key) && '=' !in key && Trimmed(value)
    ensures ApplyLine(c, key + "=" + value, floats) ==
            if Lookup(key).Some? && Accepted(c, Lookup(key).value, value, floats).Some?
            then Accepted(c, Lookup(key).value, value, floats).value else c
  {
    hide IndexOf, Accepted, Lookup, Trim;
    FirstIndex(key, '=', value);
    var line := key + "=" + value;
    assert line == key + ['='] + value;
    assert line[..|key|] == key && line[|key| + 1..] == value;
    TrimmedStays(key);
    TrimmedStays(value);
  }

  const KEYS: set<string> := {
    "device_name", "server", "port", "protocol", "apn", "apn_user", "apn_pass", "log_level", "log_output", "gps_uere",
    "gps_logging", "gps_log_file", "gps_print_pos"}

  /** A line with another key changes nothing. */
  lemma {:induction false} UnknownKey(c: Config, key: string, value: string, floats: Floats)
    requires Trimmed(key) && '=' !in key && Trimmed(value) && key !in KEYS
    ensures ApplyLine(c, key + "=" + value, floats) == c
  {
    hide ApplyLine, Accepted;
    KeyLine(c, key, value, floats);
  }

  lemma {:induction false} FieldLine(c: Config, p: Param, key: string, value: string, floats: Floats)
    requires key == Name(p) && Trimmed(value)
    ensures ApplyLine(c, key + "=" + value, floats) ==
            if Accepted(c, p, value, floats).Some? then Accepted(c, p, value, floats).value else c
  {
    hide ApplyLine, Accepted, Lookup, Name, Trimmed;
    NameShape(p);
    LookupName(p);
    KeyLine(c, key, value, floats);
  }

  /** The keys of the texts, and how long each may be. */
  lemma {:induction false} TextKeys(c: Config, value: string, floats: Floats)
    requires Trimmed(value)
    ensures ApplyLine(c, "device_name=" + value, floats) == if 1 <= |value| <= 31 then c.(deviceName := value) else c
    ensures ApplyLine(c, "server=" + value, floats) == if 1 <= |value| <= 63 then c.(serverAddr := value) else c
    ensures ApplyLine(c, "apn=" + value, floats) == if 1 <= |value| <= 31 then c.(apn := value) else c
    ensures ApplyLine(c, "apn_user=" + value, floats) == if |value| <= 31 then c.(apnUser := value) else c
    ensures ApplyLine(c, "apn_pass=" + value, floats) == if |value| <= 31 then c.(apnPass := value) else c
    ensures ApplyLine(c, "gps_log_file=" + value, floats) == if 1 <= |value| <= 127 then c.(gpsLogFile := value) else c
  {
    hide ApplyLine, Trimmed;
    FieldLine(c, DeviceName, "device_name", value, floats);
    FieldLine(c, ServerAddr, "server", value, floats);
    FieldLine(c, Apn, "apn", value, floats);
    FieldLine(c, ApnUser, "apn_user", value, floats);
    FieldLine(c, ApnPass, "apn_pass", value, floats);
    FieldLine(c, GpsLogFile, "gps_log_file", value, floats);
    assert "device_name=" == "device_name" + "=" && "server=" == "server" + "=" && "apn=" == "apn" + "=";
    assert "apn_user=" == "apn_user" + "=" && "apn_pass=" == "apn_pass" + "=";
    assert "gps_log_file=" == "gps_log_file" + "=";
  }

  /** A value is one of some words in small letters, its own letters being of either case. */
  lemma {:induction false} SaysLower(value: string, words: seq<string>)
    requires forall i :: 0 <= i < |words| ==> LowerCase(words[i])
    ensures Says(value, words) <==> Lower(value) in words
  {
    forall i | 0 <= i < |words| ensures Lower(words[i]) == words[i] {
    }
    if Lower(value) in words {
      var i :| 0 <= i < |words| && words[i] == Lower(value);
      assert Lower(value) == Lower(words[i]);
    }
  }

  /** The words of each choice. */
  lemma {:induction false} WordsMean(value: string)
    ensures var w := Lower(value);
            && ProtocolOf(value) == (if w == "http" then Some(Http) else if w == "https" then Some(Https) else None)
            && OutputOf(value) == (if w == "uart" then Some(Uart) else if w == "trace" then Some(Trace)
                                   else if w == "file" then Some(ToFile) else None)
            && SwitchOf(value) == (if w in ["0", "disable", "disabled", "false"] then Some(false)
                                   else if w in ["1", "enable", "enabled", "true"] then Some(true) else None)
  {
    hide Says;
    SaysLower(value, ["http"]);
    SaysLower(value, ["https"]);
    SaysLower(value, ["uart"]);
    SaysLower(value, ["trace"]);
    SaysLower(value, ["file"]);
    SaysLower(value, ["0", "disable", "disabled", "false"]);
    SaysLower(value, ["1", "enable", "enabled", "true"]);
  }

  lemma {:induction false} LevelsMean(value: string)
    ensures var w := Lower(value);
            LevelOf(value) == if w == "none" then Some(LevelNone) else if w == "error" then Some(LevelError)
                              else if w == "warn" || w == "warning" then Some(LevelWarn)
                              else if w == "info" then Some(LevelInfo)
                              else if w == "debug" then Some(LevelDebug) else None
  {
    hide Says;
    SaysLower(value, ["none"]);
    SaysLower(value, ["error"]);
    SaysLower(value, ["warn", "warning"]);
    SaysLower(value, ["info"]);
    SaysLower(value, ["debug"]);
  }

  /** The keys of the choices. */
  lemma {:induction false} ChoiceKeys(c: Config, value: string, floats: Floats)
    requires Trimmed(value)
    ensures var v := ProtocolOf(value);
            ApplyLine(c, "protocol=" + value, floats) == if v.Some? then c.(protocol := v.value) else c
    ensures var v := LevelOf(value);
            ApplyLine(c, "log_level=" + value, floats) == if v.Some? then c.(logLevel := v.value) else c
    ensures var v := OutputOf(value);
            ApplyLine(c, "log_output=" + value, floats) == if v.Some? then c.(logOutput := v.value) else c
    ensures var v := SwitchOf(value);
            && ApplyLine(c, "gps_logging=" + value, floats) == (if v.Some? then c.(gpsLogging := v.value) else c)
            && ApplyLine(c, "gps_print_pos=" + value, floats) == (if v.Some? then c.(gpsPrintPos := v.value) else c)
  {
    hide ApplyLine, Trimmed, ProtocolOf, LevelOf, OutputOf, SwitchOf;
    FieldLine(c, ServerProtocol, "protocol", value, floats);
    FieldLine(c, Level, "log_level", value, floats);
    FieldLine(c, Output, "log_output", value, floats);
    FieldLine(c, GpsLogs, "gps_logging", value, floats);
    FieldLine(c, GpsPrintPos, "gps_print_pos", value, floats);
    assert "protocol=" == "protocol" + "=" && "log_level=" == "log_level" + "=" && "log_output=" == "log_output" + "=";
    assert "gps_logging=" == "gps_logging" + "=" && "gps_print_pos=" == "gps_print_pos" + "=";
  }

  /** The keys of the numbers: a port from 1 to 65535 with its sign and digits, and a float between 0 and 100. */
  lemma {:induction false} NumberKeys(c: Config, value: string, floats: Floats)
    requires Trimmed(value)
    ensures var n := WholeNumber(value);
            ApplyLine(c, "port=" + value, floats) ==
            if n.Some? && 1 <= n.value <= 65535 then c.(serverPort := if |value| <= 7 then value else value[..7]) else c
    ensures var r := floats.parse(value);
            ApplyLine(c, "gps_uere=" + value, floats) == if 0.0 < r < 100.0 then c.(gpsUere := r) else c
  {
    hide ApplyLine, Trimmed, WholeNumber;
    FieldLine(c, ServerPort, "port", value, floats);
    FieldLine(c, GpsUere, "gps_uere", value, floats);
    assert "port=" == "port" + "=" && "gps_uere=" == "gps_uere" + "=";
  }

  lemma {:induction false} NoDigits()
    ensures Decimal("") == 0
  {
  }

  lemma {:induction false} NoSpace(t: string)
    requires t != "" && (t[0] == '+' || t[0] == '-' || '0' <= t[0] <= '9')
    ensures TrimLeft(t) == t
  {
  }

  /** Digits, with a sign or without, are a whole number: one more digit is ten times the number and the digit. */
  lemma {:induction false} DigitsCount(digits: string, digit: string)
    requires AllDigits(digits) && AllDigits(digit) && |digit| == 1
    ensures var n := Decimal(digits) * 10 + (digit[0] as int - '0' as int);
            && WholeNumber(digits + digit) == Some(n) && WholeNumber("+" + (digits + digit)) == Some(n)
            && WholeNumber("-" + (digits + digit)) == Some(-n)
    ensures Decimal("") == 0
  {
    hide Decimal;
    var t := digits + digit;
    DecimalMore(digits, digit);
    NoDigits();
    assert t[0] == if digits == "" then digit[0] else digits[0];
    NoSpace(t);
    NoSpace("+" + t);
    NoSpace("-" + t);
    assert ("+" + t)[1..] == t && ("-" + t)[1..] == t;
  }

  /** The word that is saved for a choice: which one, where several are accepted. */
  lemma {:induction false} WordsSaved(c: Config, floats: Floats)
    ensures Serialized(c, ServerProtocol, floats) == if c.protocol.Https? then "https" else "http"
    ensures Serialized(c, Output, floats) ==
            if c.logOutput.Uart? then "uart" else if c.logOutput.Trace? then "trace" else "file"
    ensures Serialized(c, Level, floats) in ["", "error", "warn", "info", "debug"]
    ensures !c.logLevel.LevelNone? ==> LevelOf(Serialized(c, Level, floats)) == Some(c.logLevel)
    ensures Serialized(c, Level, floats) == "" <==> c.logLevel.LevelNone?
    ensures Serialized(c, GpsLogs, floats) == if c.gpsLogging then "true" else "false"
    ensures Serialized(c, GpsPrintPos, floats) == if c.gpsPrintPos then "true" else "false"
  {
    hide LevelOf;
    LevelWords();
  }

  /** One line of the saved file: the key padded to 20 columns, an equals sign between spaces, the value, a return. */
  lemma {:induction false} SavedLineLayout(c: Config, p: Param, floats: Floats)
    ensures var line := SavedLine(c, p, floats);
            && |line| == 24 + |Serialized(c, p, floats)| && line[..|Name(p)|] == Name(p)
            && (forall i :: |Name(p)| <= i < 20 ==> line[i] == ' ') && line[20..23] == " = "
            && line[23..] == Serialized(c, p, floats) + [0x0D as char]
  {
    hide Serialized;
    NameBytes(p);
    hide Name;
    var key, value := Padded(Name(p)), Serialized(c, p, floats);
    var line := SavedLine(c, p, floats);
    assert |key| == 20 && forall i :: |Name(p)| <= i < 20 ==> key[i] == ' ';
    assert line == key + (" = " + (value + "\r"));
    assert line[..20] == key && line[20..23] == " = " && line[23..] == value + "\r";
    assert forall i :: 0 <= i < 20 ==> line[i] == key[i];
    assert line[..|Name(p)|] == key[..|Name(p)|] == Name(p);
    assert "\r" == [0x0D as char];
  }
}
