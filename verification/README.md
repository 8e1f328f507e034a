# Verification of the tracker firmware's data handling

This project models four parts of the repository and proves what they promise:

- **cJSON** (`libs/cjson/src/cJSON.c`): the recursive-descent parser with its cursor and its heap, the printer with its
  growing buffer, the minifier, the linked lists of children, deep copy and comparison;
- **the configuration store** (`app/src/config_store.c`, `app/src/config_validation.c`): the line reader over a fixed
  buffer, the validators and serializers, and saving;
- **the image merge** of the build (`platform/compilation/lodtool.py`);
- **two helpers of the application**: the calendar (`app/src/utils.c`) and the command table (`app/src/config_commands.c`).

`dafny verify dfyconfig.toml` checks everything.

## How the model is built

Code that changes state is modelled as it stands: classes with the fields of the C structures, loops with invariants,
arrays written in place. Each such method is proved against a pure description, and the laws are lemmas about that
description.

| file | content |
|---|---|
| `Prelude.dfy`, `TextUtils.dfy` | texts inside texts, C strings, trimming, lines |
| `StringCodec.dfy` | escapes, UTF-16 units, UTF-8; what a string literal means |
| `Json.dfy` | the trees, how their numbers are spelled, and the text that is printed for them |
| `JsonReader.dfy` | the reader that the parser refines, as functions |
| `Grammar.dfy` | the language itself: the reader accepts exactly the texts put together from tokens and white space |
| `RoundTrip.dfy` | the reader inverts the printer |
| `Heap.dfy` | items, shapes of item trees, the allocator with refusals, deletion |
| `Parser.dfy` | the parser over cursor and heap refines the reader |
| `Printer.dfy` | the printer over its buffer refines the rendering |
| `Documents.dfy` | printing and then parsing, as programs |
| `Minify.dfy`, `MinifyProofs.dfy` | minifying in place, and what it does to printed text |
| `ItemList.dfy`, `Duplication.dfy`, `Comparison.dfy` | lists of children, deep copy, comparison |
| `ConfigValidation.dfy`, `ConfigStore.dfy`, `ConfigRoundTrip.dfy` | fields, loading, saving and loading |
| `LodMerge.dfy`, `Calendar.dfy`, `Dispatch.dfy` | image merge, epoch time, command dispatch |

A byte is a `char`, so every statement about texts covers all byte strings. The heap keeps a ghost set `live` of what was
allocated and not freed, and a ghost counter of refused requests: any request may be refused, only live objects may be
freed. `Tree` is the shape of an item with everything below it; `Shaped` says that the heap has that shape, `Means` that it
stands for a JSON value, `Owned` what deletion must free. Reads outside a buffer are excluded because every index is
checked.

All lemmas carry `{:induction false}`: their proofs say where they recurse.

A number is a text: in a tree that was parsed, the numeral that names its double; in a rendered text, what `print_number`
writes for it. `spell`, any function from the one to the other that yields numerals of at most 25 bytes or "null", stands
for the conversions in between; `numeric` gives the double itself.

Nine properties are false of the code as it stands, and their exact conditions are proved:

- parsing numbers: `libs/cjson/src/cJSON.h:32` defines `GPRS_CSDK`, so `parse_number` calls `atof`, `after_end` stays NULL
  (`libs/cjson/src/cJSON.c:330-331`), and the cursor is moved by an address (`libs/cjson/src/cJSON.c:358`). The branch is
  the constant `strtod` of the parse buffer. With atof the parser follows the grammar on documents without numbers, and
  of the others accepts the lone numbers only (`AtofNeverRight`, `ParseWithOpts`, `ParseOne`, `ParseArrayOfOne`);
- parsing, printing and parsing again gives the same tree only if each numeral is its own spelling (`PrintedParse`;
  `NumeralsChange` gives two texts, for conversions that write 0.1 for 0.10 and null for an infinity);
- the length of a string to be printed is summed up in a 32-bit `size_t`: beyond it the sum wraps around, and too small a
  buffer is asked for (`PrintStringPtr`, `NeedWraps`);
- a buffer that starts empty and is grown by hand is read one byte beyond its end (`PrintBuffered`);
- minifying steps over the terminator when a literal or a block comment is not closed (`MinifyInPlace`, `MinifyRunsOver`);
- a copy of an object with two different values under one key, or of a NaN, does not compare equal to it
  (`CopyCompareDelete`, `CopyMayDiffer`);
- a port with more than seven characters is accepted and stored as another port (`PortStored`, `PortClipped`);
- a saved configuration is not always restored: the log level NONE is lost, as is a string with surrounding white space
  or a newline (`SaveThenLoad`, `NoneIsLost`);
- the answer of saving is yes whenever the file opens, but the file holds the configuration only if no write was cut
  (`Save`, `SaveOnFullDisk`).

In the same way `MonthsCarry` and `MkTime` give the conditions under which the calendar arithmetic is right.

## Model

| member | source | states |
|---|---|---|
| StringCodec.ParseHex4 | libs/cjson/src/cJSON.c:560-593 | the loop over four digits yields the code unit they name, and 0 as soon as one is no hex digit |
| StringCodec.MasksAreArithmetic | libs/cjson/src/cJSON.c:597-715 | on 32-bit words the masks and shifts of the encoder are the divisions, remainders and sums used in the model |
| StringCodec.PairsNameScalars | libs/cjson/src/cJSON.c:652 | every scalar beyond the basic plane is named by the pair with its upper ten bits in the first and its lower ten bits in the second half |
| StringCodec.ScalarsHaveOnePair | libs/cjson/src/cJSON.c:652 | every pair of surrogates names such a scalar, and no two pairs name the same |
| StringCodec.MasksCombine | libs/cjson/src/cJSON.c:652 | the masks and shifts of the source combine the halves of every pair in that way |
| StringCodec.HexReads | libs/cjson/src/cJSON.c:560-593 | four digits, small and capital ones mixed, are read as the number they spell, high digit first |
| StringCodec.HexSpelled | libs/cjson/src/cJSON.c:560-593 | four bytes taken for digits are sixteen small or sixteen capital ones only |
| StringCodec.ShortEscapes | libs/cjson/src/cJSON.c:782-802 | the eight letters behind a backslash and the bytes they name, by their codes, and no others |
| StringCodec.EscapeMeans | libs/cjson/src/cJSON.c:917-961 | a byte is escaped exactly when its code is below 32, 34 or 92: by its letter, if it has one, and else by its code in two small hex digits |
| StringCodec.Utf8Decodes | libs/cjson/src/cJSON.c:597-715 | an independent decoder reads the encoding of every code point back, whatever follows (section 3 of RFC 3629) |
| StringCodec.Utf8Shortest | libs/cjson/src/cJSON.c:660-690 | no byte sequence that decodes to the same code point is shorter |
| StringCodec.ReadLiteral | libs/cjson/src/cJSON.c:718-844 | a literal of raw bytes, two-byte escapes and \u escapes is read exactly when every surrogate is paired; the result is the raw bytes and the UTF-8 encodings of the named scalars, pairs combined as in section 2.2 of RFC 2781 |
| StringCodec.PiecesFound | libs/cjson/src/cJSON.c:756-844 | whatever is accepted as a string consists of raw bytes, two-byte escapes with one of the eight letters, and \u with four bytes; only an escaped quote at the end may share the closing quote |
| StringCodec.ReadsAnywhere | libs/cjson/src/cJSON.c:718-844 | a text that is one literal from end to end is read as the same string wherever it stands |
| StringCodec.EscapeConcat | libs/cjson/src/cJSON.c:917-961 | escaping goes byte by byte: the escape of a concatenation is the concatenation of the escapes |
| StringCodec.NothingToEscape | libs/cjson/src/cJSON.c:906-915 | when the counted length equals the length of the string, copying it unchanged is the escape, so the fast path is right |
| StringCodec.StringRoundTrip | libs/cjson/src/cJSON.c:718-966 | reading a quoted and escaped NUL-free string gives it back and stops right behind the closing quote |
| Parser.Utf16LiteralToUtf8 | libs/cjson/src/cJSON.c:597-715 | fails exactly on short input and unpaired surrogates; otherwise writes the encoding of the named scalar, consumes 6 or 12 bytes, and touches nothing in front of the write position |
| Parser.WriteUtf8 | libs/cjson/src/cJSON.c:692-707 | filling the bytes from the back, six bits at a time, produces the encoding |
| Parser.ParseBuffer.SkipWhitespace | libs/cjson/src/cJSON.c:983-1001 | steps over bytes up to 32 only and stops at a byte above 32 or at the last one; a cursor behind the end steps back, one that has left the buffer stays where it is |
| Parser.ParseBuffer.MeasureString | libs/cjson/src/cJSON.c:731-756 | the first pass finds the closing quote and counts one byte saved for each escape |
| Parser.ParseBuffer.RoomStep | libs/cjson/src/cJSON.c:731-819 | one step of the second pass writes no more than the first pass reserved for it, also when a bad \u escape makes the passes step differently |
| Parser.ParseBuffer.DecodeString | libs/cjson/src/cJSON.c:756-844 | the buffer of the size computed by the first pass suffices for every input; the bytes written are those the literal means, and the pass fails exactly when it means nothing |
| Parser.ParseBuffer.ParseString | libs/cjson/src/cJSON.c:718-844 | success gives the item a new buffer with the string; on failure the buffer is freed again and the item is as before; failure only for a bad literal or a refused allocation |
| Parser.ParseBuffer.ParseNumber | libs/cjson/src/cJSON.c:283-360 | with strtod: takes the longest numeral among at most 63 number bytes and moves the cursor behind it, or fails; with atof: always succeeds and moves the cursor by the distance from NULL to the number buffer |
| Parser.AtofNeverRight | libs/cjson/src/cJSON.c:330-358 | with atof the cursor never ends behind the numeral, wherever the number buffer lies; if that is far from both ends of the memory, the cursor leaves the text |
| Parser.ParseBuffer.ParseValue | libs/cjson/src/cJSON.c:1232-1284 | with strtod on every text, and with atof on every text in which the value meets no number, agrees with the grammar of the reader, moves the cursor behind the value, restores the depth and builds fresh items standing for it; with atof a number at the cursor succeeds and loses the cursor, and every container with a number fails; failure leaves nothing allocated and needs a bad text, a refused allocation or a lost cursor |
| Parser.ParseBuffer.ParseArray | libs/cjson/src/cJSON.c:1361-1452 | the same for arrays, with the nesting limit; success never leaves a lost cursor |
| Parser.ParseBuffer.ParseElements | libs/cjson/src/cJSON.c:1395-1451 | the element loop builds a doubly linked chain of fresh items for the values read; on failure the chain is deleted |
| Parser.ParseBuffer.AbandonItems | libs/cjson/src/cJSON.c:1445-1449 | the failure exit frees exactly the items attached so far |
| Parser.ParseBuffer.ParseObject | libs/cjson/src/cJSON.c:1517-1623 | the same for objects, with the key of every member in its own buffer |
| Parser.ParseBuffer.ParseNameAndValue | libs/cjson/src/cJSON.c:1573-1598 | a member's name moves from the value to the key of its item without being freed or leaked |
| Parser.SkipUtf8Bom | libs/cjson/src/cJSON.c:1004-1017 | skips the byte order mark only at the start and only when four more bytes can be accessed |
| Parser.ParseWithOpts | libs/cjson/src/cJSON.c:1020-1097 | for every text, either branch of parse_number and every pattern of refused allocations: unless atof meets a number, success builds fresh items for the document the reader describes, which is that of the grammar (`AcceptsDocuments`), and reports its end, and failure happens only for a bad text or a refusal; when atof meets a number, the documents accepted are exactly the lone numbers, if no terminator is asked for, and the end reported lies outside the text; failure leaves the set of live allocations as it was |
| Grammar.DocumentIsRead | libs/cjson/src/cJSON.c:1020-1623 | (the strtod branch) every text put together from tokens, with any bytes from 1 to 32 between them, numerals of at most 63 bytes, and at most 1000 containers open, behind a byte order mark or not, is read as the tree it means, up to its end |
| Grammar.DocumentFound | libs/cjson/src/cJSON.c:1020-1623 | (the strtod branch) conversely, whatever is accepted was put together in this way, and the tree is the one it means |
| Grammar.AcceptsDocuments | libs/cjson/src/cJSON.c:1020-1623 | the texts accepted up to their terminator are exactly those texts |
| Grammar.FormIsRead | libs/cjson/src/cJSON.c:1232-1623 | the text of a value is read wherever it stands, and the reading ends behind it |
| Grammar.FormFound | libs/cjson/src/cJSON.c:1232-1623 | whatever is read as a value is such a text, with the commas, colons, brackets and white space where they belong |
| Grammar.PartsAreNumeral | libs/cjson/src/cJSON.c:283-330 | a sign or none, digits with one point at most, and an exponent or none make up a numeral |
| Grammar.NumeralHasParts | libs/cjson/src/cJSON.c:283-330 | every numeral has such parts |
| Parser.ParseOne | libs/cjson/src/cJSON.c:1020-1097 | as compiled, with atof: the text 1 is accepted with an address as its end |
| Parser.ParseArrayOfOne | libs/cjson/src/cJSON.c:1361-1452 | as compiled, with atof: the text [1] is rejected, though it is in the grammar |
| Parser.ParseAndDelete | libs/cjson/src/cJSON.c:231-252 | parsing and deleting the result restores the set of live allocations, whatever the input and the branch of parse_number |
| JsonReader.NumberFreeUnmet | libs/cjson/src/cJSON.c:1232-1623 | of a text in the grammar, the parser meets a number exactly when the tree has one |
| Heap.Allocator.Delete | libs/cjson/src/cJSON.c:231-252 | frees what a chain of items owns, each object once, and nothing of a reference or a constant key |
| Heap.Allocator.Reallocate | libs/cjson/src/cJSON.c:443-455 | on success the old block is gone and its bytes have moved; on failure it stays |
| Heap.ChainGrows | libs/cjson/src/cJSON.c:1405-1417 | attaching a subtree that shares nothing keeps every object owned once |
| RoundTrip.ValueReads | libs/cjson/src/cJSON.c:1232-1737 | in the grammar (the strtod branch): a printed tree is read back wherever it stands in a text, in either format, and the reader stops right behind it |
| RoundTrip.DocumentRoundTrip | libs/cjson/src/cJSON.c:1020-1737 | in the grammar (the strtod branch): the text of every printable, Raw-free tree of at most 1000 nested containers, its numbers spelled as print_number does, reads as the same tree, members in the same order, and ends exactly at the terminator |
| RoundTrip.ParsedFits | libs/cjson/src/cJSON.c:1232-1623 | whatever the grammar yields, with its numbers spelled as print_number does, can be printed and is at most 1000 containers deep |
| RoundTrip.PrintedReads | libs/cjson/src/cJSON.c:1020-1737 | printing a tree and reading the text gives the tree with its numbers as spelled: the same tree exactly when every number is its own spelling |
| RoundTrip.PrintedParse | libs/cjson/src/cJSON.c:1020-1737 | for every text in the grammar: its tree, printed and read again, is the same exactly when each numeral is its own spelling, and a second round changes nothing exactly when the spellings have settled |
| RoundTrip.NumeralsChange | libs/cjson/src/cJSON.c:494-535 | 0.10 and 1e400 are read; if the conversions write 0.1 for the one and, it being an infinity, null for the other (the two spellings are assumed), the printed texts are read as another number and as null |
| Documents.PrintThenParse | libs/cjson/src/cJSON.c:1020-1210 | the printer and the parser as they run, one after the other, on items on the heap: with strtod fresh items stand for the tree as its numbers are spelled, unless memory is refused or the text exceeds INT_MAX, for which nothing is printed; with atof exactly when no number was written; with an account of the heap |
| Documents.PrintedStays | libs/cjson/src/cJSON.c:1287-1358 | the compiled parser, with atof, loses its cursor on the text of a tree exactly when the tree has a number |
| Documents.PrintParseCompare | libs/cjson/src/cJSON.c:1020-2942 | printed, parsed and compared with its source, the answer is yes exactly when members under the same key agree and no number is NaN, if no double is lost in its spelling |
| Comparison.SpelledMeans | libs/cjson/src/cJSON.c:494-557 | with a lossless spelling a tree that is printed and read again means what it meant, members and nesting included |
| Printer.PrintBuffer.Ensure | libs/cjson/src/cJSON.c:393-478 | preserves the bytes before the offset, leaves room for more than was asked, never makes a buffer larger than INT_MAX, and passes a 32-bit size_t exactly when the need itself does; otherwise fails exactly when the buffer is gone or full, the demand exceeds the capacity or memory is refused |
| Printer.PrintBuffer.UpdateOffset | libs/cjson/src/cJSON.c:481-491 | the offset moves behind the text that was printed |
| Printer.PrintBuffer.PrintNumber | libs/cjson/src/cJSON.c:494-557 | prints the spelling of the number and moves behind it, demanding its length and two bytes; fails for a spelling that outgrows the number buffer |
| Printer.CountEscapes | libs/cjson/src/cJSON.c:874-898 | the first loop counts exactly the bytes by which the escaped text is longer |
| Printer.WriteQuoted | libs/cjson/src/cJSON.c:906-963 | the fast and the slow path both write the quoted escape and a terminator |
| Printer.PrintBuffer.PrintStringPtr | libs/cjson/src/cJSON.c:847-966 | prints the quoted string, or two quotes for a missing one, and demands exactly the length of that text and two bytes; the sum of lengths wraps around exactly when that text and its NUL exceed a 32-bit size_t |
| Printer.NeedWraps | libs/cjson/src/cJSON.c:898-900 | a string of 715827883 control characters needs 2^32 and 5 bytes, so 5 are asked for |
| Printer.PrintBuffer.PrintArray | libs/cjson/src/cJSON.c:1455-1514 | walks the chain of elements and prints the rendering of the array behind what is in the buffer, with total demand its length and two |
| Printer.PrintBuffer.PrintObject | libs/cjson/src/cJSON.c:1626-1737 | prints the rendering of the object, in either format, with the same law |
| Printer.PrintBuffer.PrintValue | libs/cjson/src/cJSON.c:1287-1358 | from every buffer state, for every item that stands for a printable tree: success appends the rendering and restores the depth; success within the capacity, failure exactly beyond it or on refusal; the heap holds the buffer and nothing else new, and nothing behind the end of a given block is written; a sum of lengths wraps around only for a text that exceeds size_t |
| Printer.PrintPreallocated | libs/cjson/src/cJSON.c:1212-1229 | true exactly when there is a block and the given length is at least that of the text and two more; then the block holds the text and its NUL; nothing is allocated, nothing behind the given length is written |
| Printer.PrintBuffered | libs/cjson/src/cJSON.c:1182-1210 | the result is the rendering whatever the initial size; NULL exactly for a negative size, a text beyond INT_MAX or a refusal, and then nothing is leaked; a result comes with a byte read behind an empty block exactly for the initial size 0 without realloc |
| Printer.Print | libs/cjson/src/cJSON.c:1107-1169 | the result is exactly the rendering and its terminator, with or without realloc; the work buffer is gone |
| Json.ArrayLayout | libs/cjson/src/cJSON.c:1455-1514 | an array is printed on one line, with a comma, and a space if formatted, between its items |
| Json.ObjectLayout | libs/cjson/src/cJSON.c:1626-1737 | an object is printed with a line for each member, one tab deeper, a tab behind each colon, and the closing brace on a line of its own; or without any white space |
| Printer.RenderIsNulFree | libs/cjson/src/cJSON.c:1287-1358 | printed text contains no NUL, so strlen finds its end |
| Minify.MinifyInPlace | libs/cjson/src/cJSON.c:2649-2717 | in place, on every text: the read pointer passes the terminator exactly when the text leaves a literal or a block comment open; otherwise the block holds what a reading byte by byte gives out; the write pointer never overtakes the read pointer, nothing behind the text is written |
| Minify.MinifiedIsOutput | libs/cjson/src/cJSON.c:2649-2717 | what is left is the text without tabs, line feeds, returns and spaces outside of literals, without line comments and without block comments; a slash that starts no comment stays |
| Minify.CopyString | libs/cjson/src/cJSON.c:2694-2707 | a string literal is moved unchanged up to its closing quote; without one the read pointer passes the terminator |
| MinifyProofs.MinifyUndoesFormatting | libs/cjson/src/cJSON.c:2649-2717 | minifying either printed form of every Raw-free tree gives its unformatted form, byte for byte |
| MinifyProofs.TreeShrinks | libs/cjson/src/cJSON.c:1455-1514 | the same for a subtree at any depth inside any text |
| Minify.MinifyStaysInside | libs/cjson/src/cJSON.c:2649-2717 | the scan stays inside the text exactly when a left-to-right reading of the bytes ends outside of literals and block comments |
| MinifyProofs.MinifyRunsOver | libs/cjson/src/cJSON.c:2685-2707 | applied to an open comment and to an open literal, the program passes the terminator |
| ItemList.GetArrayItem | libs/cjson/src/cJSON.c:1763-1780 | the item at the index, or NULL behind the end |
| ItemList.AddItemToArray | libs/cjson/src/cJSON.c:1864-1891 | appends to the list of children, NULL-ended and linked both ways |
| ItemList.DetachItemViaPointer | libs/cjson/src/cJSON.c:2091-2119 | removes one child; the item points nowhere afterwards |
| ItemList.DetachItemFromArray | libs/cjson/src/cJSON.c:2121-2129 | removes the child at the index, or nothing |
| ItemList.InsertItemInArray | libs/cjson/src/cJSON.c:2161-2188 | inserts in front of the index, or appends behind the end, or ignores a negative index |
| ItemList.Relink | libs/cjson/src/cJSON.c:2190-2216 | the replacement takes the place of the item in the list |
| ItemList.ReplaceItemViaPointer | libs/cjson/src/cJSON.c:2190-2223 | replaces one child and frees exactly what it owned |
| ItemList.DetachAndInsert | libs/cjson/src/cJSON.c:2091-2188 | detaching the child at an index and inserting it there again restores the list |
| ItemList.ReplaceItemInArray | libs/cjson/src/cJSON.c:2225-2233 | replaces the child at the index and frees exactly what it owned; does nothing for another index or for the child itself |
| ItemList.ApplyEdits | libs/cjson/src/cJSON.c:1864-2233 | any sequence of add, insert, detach and replace calls, never using again what was deleted, keeps the list acyclic, NULL-ended and linked both ways and realises the corresponding sequence operations; what is replaced is freed, once, and nothing else is; what is detached can be used again |
| ItemList.EditedHeads | libs/cjson/src/cJSON.c:1864-2223 | each operation changes the set of children by its own item only |
| Duplication.Strdup | libs/cjson/src/cJSON.c:166-185 | a fresh buffer with the same C string, or nothing |
| Duplication.CopyItem | libs/cjson/src/cJSON.c:2570-2612 | the item without children is copied to fresh memory; a constant key is shared; on refusal everything is freed again |
| Duplication.AttachCopy | libs/cjson/src/cJSON.c:2622-2634 | linking in one more child keeps the copy well shaped and everything owned once |
| Duplication.Duplicate | libs/cjson/src/cJSON.c:2570-2647 | the copy stands for the same value, has no references and owns fresh memory only; on failure the heap is as before; the source is not written |
| Duplication.CopyCompareDelete | libs/cjson/src/cJSON.c:2570-2942 | a deep copy compares equal to its source exactly when members under the same key agree and no number is NaN, and deleting it restores the heap |
| Duplication.CopyMayDiffer | libs/cjson/src/cJSON.c:2857-2937 | an object with two different values under one key, or a NaN, is not equal to its copy |
| Comparison.Compare | libs/cjson/src/cJSON.c:2819-2942 | for items that share nothing: true exactly when both trees are coherent and alike, that is, equal strings and doubles, arrays position by position, and for every member of either object one under the same key in the other; for coherent trees the same holds when they share items |
| Comparison.AlikeMeans | libs/cjson/src/cJSON.c:2819-2942 | for coherent trees, to have the same meaning is to be alike: nothing else is forgotten |
| Comparison.CoherentObjects | libs/cjson/src/cJSON.c:2901-2937 | coherent objects are those of coherent values in which members under one key are alike |
| Prelude.LowerLetters | libs/cjson/src/cJSON.c:101-122 | two bytes are equal letter case apart exactly when they are one byte or the two cases of one of the 26 letters |
| Comparison.Includes | libs/cjson/src/cJSON.c:2905-2918 | one object loop: every member has an equal under its key in the other object |
| Comparison.CoveredBothWays | libs/cjson/src/cJSON.c:2901-2937 | the two object loops together decide equality of the tables |
| Comparison.OrderIrrelevant | libs/cjson/src/cJSON.c:2901-2937 | reordering the members of an object with distinct keys does not change what is compared |
| Comparison.DistinctIsCoherent | libs/cjson/src/cJSON.c:2901-2937 | with distinct keys and without NaN every tree is coherent, so the comparison is exactly equality of meaning |
| Comparison.CompareBothWays | libs/cjson/src/cJSON.c:2819-2942 | the answer is symmetric on trees that share nothing, and on any trees with distinct keys and without NaN |
| Comparison.CompareInTurn | libs/cjson/src/cJSON.c:2819-2942 | it is transitive on them |
| Comparison.OneValue | libs/cjson/src/cJSON.c:2843-2847 | an item stands for one value only, so answering at once for identical items is right |
| Comparison.GetObjectItem | libs/cjson/src/cJSON.c:1792-1818 | the first member under the key, with or without regard to case |
| Comparison.SameIgnoringCase | libs/cjson/src/cJSON.c:101-122 | zero exactly for C strings that differ in case only |
| TextUtils.TrimWhitespace | app/src/utils.c:73-89 | trims in the buffer; only the text and its terminator are written |
| TextUtils.SpaceCodes | app/src/utils.c:73-89 | white space are the six bytes of isspace, by their codes |
| TextUtils.TrimMeans | app/src/utils.c:73-89 | trimming finds exactly the text between the surrounding white space |
| TextUtils.StrCaseCmp | app/src/utils.c:54-71 | negative, zero or positive as the texts stand in dictionary order, letter case apart |
| TextUtils.LinesOfUnlines | app/src/config_store.c:64-140 | splitting into lines undoes joining them |
| TextUtils.UnlinesOfLines | app/src/config_store.c:64-140 | the lines of a text, joined again, are the text |
| ConfigStore.ParseLine | app/src/config_store.c:21-44 | key and value are split at the first '=', trimmed in the buffer and offered to the validator of the key; the answer is yes exactly when there is a '=', the key is known and the value accepted; nothing outside the line is written |
| ConfigStore.File.Read | app/src/config_store.c:72-80 | a read may fail or be short, but never writes outside the stretch it was given |
| ConfigStore.Overlong | app/src/config_store.c:91-99 | a buffer full of one line is dropped, and the rest of that line later |
| ConfigStore.OneLine | app/src/config_store.c:102-133 | a line with its newline, or the last line without one, is handed over unless it is the tail of an overlong one |
| ConfigStore.ProcessLines | app/src/config_store.c:101-139 | the inner loop hands over the lines in the buffer and keeps the unfinished one |
| ConfigStore.Load | app/src/config_store.c:46-144 | for every NUL-free file and every schedule of short reads: the lines given to parse_line, as a log of its calls, are in order exactly the lines of the file of at most 254 bytes, an unterminated last one included; after a read error they are a prefix of them; the loop terminates; without a file the answer is no and nothing changes |
| ConfigStore.KeptMeans | app/src/config_store.c:91-99 | dropping overlong lines is a filter by length |
| ConfigValidation.Store.Validate | app/src/config_validation.c:60-276 | each validator accepts exactly the texts its field allows and writes that field only |
| ConfigValidation.AcceptedBounded | app/src/config_validation.c:60-276 | no validator lets a string outgrow its array |
| ConfigValidation.PortStored | app/src/config_validation.c:99-111 | the port that is stored is the accepted one exactly when its text is shorter than the array; a longer text is clipped to another number or none |
| ConfigValidation.PortClipped | app/src/config_validation.c:99-111 | 00000080 is accepted as port 80 and stored as 0000008, port 8 |
| ConfigValidation.GetConfigMap | app/src/config_validation.c:48-57 | the entry of that name, if there is one |
| ConfigRoundTrip.TextKeys | app/src/config_store.h:13-25 | the line `key=value` for each key of a text: which field it sets, and the lengths that are accepted |
| ConfigRoundTrip.ChoiceKeys | app/src/config_store.h:13-25 | the line for each key of a choice sets its field to what the word means, or changes nothing |
| ConfigRoundTrip.NumberKeys | app/src/config_store.h:13-25 | the lines for the port, from 1 to 65535, and for the UERE, between 0 and 100 |
| ConfigRoundTrip.UnknownKey | app/src/config_store.c:21-44 | a line with any other key changes nothing |
| ConfigRoundTrip.WordsMean | app/src/config_validation.c:84-262 | the words of the protocol, the output and the switches, in any letter case, and no others |
| ConfigRoundTrip.LevelsMean | app/src/config_validation.c:157-181 | the words of the log levels, in any letter case, and no others |
| ConfigRoundTrip.DigitsCount | app/src/config_validation.c:99-111 | digits behind a sign or none are a whole number; one more digit makes ten times the number and the digit |
| ConfigRoundTrip.WordsSaved | app/src/config_validation.c:294-332 | the word that is saved for each choice, where several are accepted; the level NONE, and no other, is saved as nothing |
| ConfigRoundTrip.SavedLineLayout | app/src/config_store.c:167-169 | a saved line is the key padded to 20 columns, an equals sign between spaces, the value and a carriage return |
| ConfigRoundTrip.Save | app/src/config_store.c:146-180 | answers yes exactly when the file opens, whatever becomes of the writes; writes one padded line for each field, each up to where its write fails or is cut short; the file holds all lines exactly when no write is cut; no line reaches the end of the line buffer |
| ConfigRoundTrip.SaveOnFullDisk | app/src/config_store.c:146-180 | on a full disk the file stays empty and the answer is yes; loading that file changes no configuration |
| ConfigRoundTrip.LineSettles | app/src/config_store.c:21-44 | loading a saved line offers the trimmed text of the field to its validator |
| ConfigRoundTrip.SaveThenLoad | app/src/config_store.c:46-180 | loading a saved configuration restores it from every starting configuration exactly when every field is restorable: strings trimmed, on one line and accepted by their validator, a log level other than NONE, a float that survives its text |
| ConfigRoundTrip.NotRestored | app/src/config_store.c:46-180 | a field that is not restorable is lost from some starting configuration, also when a newline in another field forges lines |
| ConfigRoundTrip.NoneIsLost | app/src/config_validation.c:304-314 | the log level NONE is saved as an empty text, which no validator accepts |
| ConfigRoundTrip.SaveAndLoad | app/src/config_store.c:46-180 | the two programs together: when no write is cut and no read fails, a second store takes over a restorable configuration |
| LodMerge.ComputeChecksum | platform/compilation/lodtool.py:27-32 | the sum of all words modulo 2^32, in whatever order the dictionary is walked |
| LodMerge.TotalOfUnion | platform/compilation/lodtool.py:27-32 | the sum over disjoint images is the sum of the sums |
| LodMerge.StartAddress | platform/compilation/lodtool.py:124-125 | the least block address; fails exactly on an empty image |
| LodMerge.EndAddress | platform/compilation/lodtool.py:116-122 | the least address no block reaches, 0 for an empty image |
| LodMerge.FillGap | platform/compilation/lodtool.py:173-189 | succeeds exactly when there is no gap or both ends are aligned to 0x1000; then the padding blocks tile the gap with blank words, 64 KiB from each address that is aligned to that size as long as there is room, 4 KiB otherwise |
| LodMerge.OneBitSet | platform/compilation/lodtool.py:146 | setting the flash bit sets bit 27 and changes no other bit |
| LodMerge.DualMerge | platform/compilation/lodtool.py:138-196 | every outcome with the condition it implies; on success the output reads as the platform image below its end, blank in the filled gap and as the application image from its start, the checksums add up, the boot sector is the platform's, every other attribute the application's, and there are no others; the application's dictionary is shared |
| LodMerge.MergedReads | platform/compilation/lodtool.py:155-196 | what one address reads as after the merge |
| LodMerge.OneWord | platform/compilation/lodtool.py:20-32 | in an image of disjoint blocks an address has one word at most |
| Calendar.MkTime | app/src/utils.c:20-52 | the loops yield the closed-form day count times 86400 and the time of day exactly when the normalised year is 1970 or later; before, the years are lost |
| Calendar.BeginsBefore1970 | app/src/utils.c:34-36 | exactly the years before 1970 begin before day 0, where the loop over the years has nothing to add |
| Calendar.DaysCounted | app/src/utils.c:20-52 | the day number is 0 on 1970-01-01 and grows by one with each next date of the Gregorian calendar |
| Calendar.LeapYears | app/src/utils.c:9-12 | the leap years by the remainders of the year |
| Calendar.MonthLaw | app/src/utils.c:14-18 | without tables: counted from March, five months are 153 days; where each month begins and how long it is |
| Calendar.FourCenturies | app/src/utils.c:34-36 | every 400 years have 146097 days |
| Calendar.StampLaw | app/src/utils.c:20-52 | the stamp of every date from 1970 on as one arithmetic formula |
| Calendar.TwoDigitYears | app/src/utils.c:25 | a year below 70 is one of the next century |
| Calendar.StampsOrdered | app/src/utils.c:20-52 | of two valid moments the earlier one has the smaller stamp, and conversely |
| Calendar.MonthsCarry | app/src/utils.c:25-29 | twelve months are a year exactly when the year stays on its side of the two-digit rule |
| Calendar.CenturyCrossed | app/src/utils.c:25 | a year and a month that do not carry: 1969 is read as 2069 |
| Calendar.Fits32Bits | app/src/utils.c:31-51 | a valid stamp and all sums on the way fit 32 signed bits exactly up to 2038-01-19 03:14:07 |
| Dispatch.Dispatcher.InitSortedIdx | app/src/config_commands.c:78-95 | the selection sort leaves a permutation of the indices in descending order of length |
| Dispatch.Dispatcher.HandleCommand | app/src/config_commands.c:409-423 | the unique longest matching command gets the rest of the trimmed input; none is called exactly when none matches |
| Dispatch.MatchesMeans | app/src/config_commands.c:409-423 | a command matches exactly when the input is the command, or the command, a space and anything |
| Dispatch.LongestUnique | app/src/config_commands.c:66-72 | the choice does not depend on the order of commands of equal length |
| Dispatch.Dispatcher.FirstIsLongest | app/src/config_commands.c:409-423 | in the sorted order the first match is the longest |
| Dispatch.UartCommandsCorrect | app/src/config_commands.c:42-57 | the lengths in the table are right and no command occurs twice |

## Left out

- Printer.PrintBuffer.PrintNumber: the text that `sprintf` writes for a double is the parameter `spell`; that %1.15g and
  %1.17g lose nothing is not proved.
- Parser.ParseBuffer.ParseNumber: the double and `valueint` with its clamping are not computed, only the numeral is kept.
- Parser.ParseBuffer.ParseValue: with atof, the number buffer is taken to lie farther from both ends of the memory than the
  length of the text, so that the moved cursor leaves the text.
- Parser.ParseWithOpts: the position reported for a parse error is only known to lie inside the text; the number buffer
  lies as for `ParseValue`.
- Printer.PrintBuffer.PrintStringPtr: after a sum of lengths has wrapped around, the run is followed no further; it is
  reported as `wrapped` and counted as a failure.
- Printer.PrintPreallocated: its answer in a run reported as `wrapped`, as for `PrintStringPtr`.
- Printer.PrintBuffered: its result in such a run.
- Printer.Print: its result in such a run.
- Printer.PrintBuffer.PrintValue: spellings are taken to fit the number buffer.
- Raw items in the round trip and in the minify laws: they insert arbitrary text.
- String values behind an embedded NUL written as a `\u0000` escape: the value is what a C caller sees of the buffer.
- NULL arguments where the code returns at once, except for the printing, list, copy and comparison functions, which model
  those that matter.
- Trees with NULL `valuestring` in a string item or NULL keys in an object.
- The creation functions, typed getters and object-key wrappers around the list operations: one-line compositions.
- cJSON_Utils.c, and reference items made by `create_reference`, beyond what deletion, copying and comparison do with them.
- ConfigStore.Load: the reported file size is its length; closing the file is not modelled, nor is flushing it after saving.
- ConfigValidation.Store.Validate: the calls to `GPS_SaveLog` and the log output have no effect on the store; NULL values,
  which `parse_line` never passes, are not modelled.
- The IMEI and the defaults of `ConfigStore_Init`.
- LodMerge.DualMerge: a `BOOT_SECTOR` attribute that is no number; loading and storing image files; `remove_bootloader`.
- Use after free: a freed object stays readable in the model; the order of reads and frees is that of the source.
- Calendar.MkTime: the arithmetic is on unbounded integers; `Fits32Bits` says when 32 bits suffice.
- The handlers behind the command table, the network, SMS, GPS, HTTP, LED and logging code.
