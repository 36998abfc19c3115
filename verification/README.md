# Verified models of ssar

ssar is a collector daemon (`sresar/`) and a query tool (`ssar/`) for the activity of a Linux system.  This project
models six of its components in Dafny and proves what they are for.

* **TOML writer and parser** (`ssar/cpptoml.h`).  `CppTomlText` has strings, escapes and integers, `CppTomlTree` the
  tree, `CppTomlWriter` and `CppTomlParser` what writer and parser compute, `CppTomlWriterObject` and
  `CppTomlParserObject` the two classes with their fields and loops.  `CppTomlRoundTrip` and `CppTomlDocument` prove
  that they undo each other.  `CppTomlSound`, `CppTomlMeaning` and `CppTomlLookups` prove what the parser makes of any
  other text: which statements it shows, what they do to the tree, and where their values are found.  `CppTomlNoise`
  and `CppTomlTails` have what does not matter in a text; `CppTomlSpelling`, `CppTomlNumbers`, `CppTomlLayout` and
  `CppTomlArrays` the ways in which keys and values may be written.
* **C TOML parser** (`sresar/toml.c`).  `CTomlUtf8`, `CTomlScan` and `CTomlNorm` are the codec, the tokenizer and the
  normaliser; `CTomlTree` and `CTomlParser` the tables and the recursive descent; `CTomlParserObject` the context with
  its moving token.  `CTomlGrammar` says which tokens stand for which statements, and `CTomlMeaning` that the parser
  does just what the statements say.  `CTomlSound`, `CTomlContents`, `CTomlHeaders`, `CTomlLookups` and `CTomlAccepts`
  prove what is accepted and what the lookups find that its callers use.  `CTomlWords`, `CTomlLines` and
  `CTomlSections` lead from the characters of a text to its statements and values.  Termination is part of the model:
  every function and loop there is accepted with a measure on the text that remains.
* **Load sampler** (`sresar/sresar.c`, `sresar/collection.c`).  `LoadRing` is the ring, `LoadHistory` the decisions
  over the unbounded history, `LoadSampler` the step on the ring that refines them, `LoadInversion` the recovery of the
  active count from the kernel's average.
* **Rotation, gates and retention** (`sresar/sresar.c`).  `Rotation` interleaves the clock, the steps of the rotation,
  the gates of four collectors and the removals, one access to a shared field at a time.  `Recycling` has the two
  recyclers.
* **Layered collection list** (`sresar/sresar.c`).  `CollectConfig` has the exchange sort, the filter, the merge and
  the selection.
* **Section events and sampling** (`ssar/CLI11.hpp`, `sresar/utils.c`).  `ConfigSections` and `ConfigReader` are
  from_config with its open and close events, `ConfigLines` what its lines mean, `Shuffle` the shuffle and the sample
  of stacks.

Code that works by changing fields and arrays is modelled by classes and methods with loops.  Each is proved against a
function of its inputs or its old state, and the results are lemmas about that function.  `Sequences` and `Wrappers`
have what several modules share.  An exception, an error return or a longjmp is an `Err` result.

Inputs from outside are parameters or steps: the clock, statvfs readings, directory listings, draws of rand(), readings
of /proc/loadavg, the kernel release, which files are regular, and whether the log is open.

## What was found

Some promises hold only under a condition; each is stated with it.

* string_literal does not undo escape_string on control bytes other than \b \t \n \f \r, because the writer does
  not pad its \u codes (`CppTomlText.StringLiteralUndoesEscapeIff`).
* A \u or \U code that takes three bytes with bit 11 set, such as U+0800, is not read as its UTF-8 encoding, because
  the mask of the middle byte is one bit too short (`CppTomlSpelling.UnicodeBytesAreUtf8Iff`,
  `CppTomlSpelling.BrokenCode`).
* The first records of the load sampler look at nodes whose zoom state is never initialised: a first record over its
  threshold triggers only if nine of them happen to be zero (`LoadHistory.FirstRecord`).  The guarantee holds from the
  tenth record on, and loads are not affected.
* A collector's test reads the lock and the clock, and C leaves open in which order.  With the clock first, an hour
  that ends in between lets the collector pass on the old hour: it finds a live directory only if the next one is
  already in use (`Rotation.GateFindsLiveIff`, with a run in `Rotation.StaleGate`).
* A rotation reads the clock twice, once for the name and once for the lock.  The lock is right exactly if both give
  the same hour (`Rotation.StampIff`, with a run in `Rotation.TornRotation`).
* Usage recycling goes on checking after space was enough.  If space gets short again in the same pass, it can remove
  the newest directory and keep an older one (`Recycling.NewestIsFreedIff`, `Recycling.NewestCanBeFreed`,
  and in a run `Rotation.NewestRemoved`).
* A limit of zero or less lets hourly recycling remove the newest of at most five directories
  (`Recycling.NewestSurvivesIff`).
* The merge of the collection list goes on behind its array if and only if more than 256 paths apply
  (`CollectConfig.OverrunIff`); with exactly 256 it still works.
* from_config leaves sections open when the default section is re-opened from a dotted section and no other header
  follows at once (`ConfigSections.NestsIff`, with a text in `ConfigSections.StrandedText`).
* A literal token can have length zero and then comes again and again (`CTomlScan.StuckLiteral`); the parser
  nevertheless ends, because no rule takes two values in a row.
* README_zh-cn.md:1164-1166 suggests that entries of the collection list are layered by `cfile`; the code merges them
  by `src_path`, and so does the model.

## Model

| member | source | states |
|---|---|---|
| `CppTomlText.EscapeStringLoop` | ssar/cpptoml.h:3415-3461 | the escaping loop gives each character its escape, in order |
| `CppTomlText.EscapeIsQuoteSafe` | ssar/cpptoml.h:3415-3461 | escaped text of any string holds no raw newline, and no quote that is not behind a backslash of its own |
| `CppTomlText.LiteralUndoesEscape` | ssar/cpptoml.h:2493-2564 | reading an escaped clean string up to its quote gives the string back, whatever follows |
| `CppTomlText.LiteralOfEscape` | ssar/cpptoml.h:2566-2627 | what is read back from any escaped string is never longer than it, and equal to it only if the string is clean: the unpadded \u of the writer swallows what follows |
| `CppTomlText.StringLiteralUndoesEscapeIff` | ssar/cpptoml.h:2493-2564 | string_literal undoes escape_string if and only if the string has no control byte other than \b \t \n \f \r |
| `CppTomlText.StollOfIntText` | ssar/cpptoml.h:2786-2809 | the decimal text of every 64-bit integer, the smallest included, is read as that integer |
| `CppTomlTree.SortedMeaning` | ssar/cpptoml.h:3326-3369 | putting the values of every table in front of its tables, as the writer does, keeps the map that the tree stands for |
| `CppTomlText.EscapeHasNoControls` | ssar/cpptoml.h:3415-3461 | escaped text of any string has no control characters |
| `CppTomlWriter.WrittenIsLines` | ssar/cpptoml.h:3326-3410 | the streamed output with its path and its naked-endline flag is a plain list of header, item and blank lines |
| `CppTomlWriter.KeyIsWrittenBareIff` | ssar/cpptoml.h:3520-3563 | exactly the keys of letters, digits, underscores and hyphens are written without quotes |
| `CppTomlWriterObject.TomlWriter.Endline` | ssar/cpptoml.h:3616-3623 | a line end is written only when the last thing written was not one |
| `CppTomlWriterObject.TomlWriter.WriteTableHeader` | ssar/cpptoml.h:3520-3563 | the header of the current path, bare or quoted part by part, and none for the root |
| `CppTomlWriterObject.TomlWriter.WriteItem` | ssar/cpptoml.h:3568-3590 | indentation, key, equals sign and value of an item |
| `CppTomlWriterObject.TomlWriter.VisitElems` | ssar/cpptoml.h:3374-3394 | the elements of an array with their commas |
| `CppTomlWriterObject.TomlWriter.SplitKeys` | ssar/cpptoml.h:3326-3369 | the keys of the values and the keys of the tables, each in the order of the map |
| `CppTomlWriterObject.TomlWriter.VisitTable` | ssar/cpptoml.h:3326-3369 | header, items, then sub-tables, with the path as before in the end |
| `CppTomlWriterObject.TomlWriter.VisitTableArray` | ssar/cpptoml.h:3399-3410 | each table of a table array under its own double-bracket header |
| `CppTomlWriterObject.Print` | ssar/cpptoml.h:3326-3410 | a new writer streams exactly the text of the tree |
| `CppTomlParserObject.TomlParser.GetLine` | ssar/cpptoml.h:1841-1868 | one line, for both line endings, and the end of the stream |
| `CppTomlParserObject.TomlParser.SkipBlanks` | ssar/cpptoml.h:3123-3136 | white space, comments and line ends inside an array, across lines |
| `CppTomlParserObject.TomlParser.ParseEscape` | ssar/cpptoml.h:2519-2564 | the characters of one escape sequence |
| `CppTomlParserObject.TomlParser.ReadLiteral` | ssar/cpptoml.h:2493-2517 | a quoted string from its quote on |
| `CppTomlParserObject.TomlParser.ReadNumber` | ssar/cpptoml.h:2656-2784 | sign, digits, underscores and leading zeros of a number |
| `CppTomlParserObject.TomlParser.ReadValueArray` | ssar/cpptoml.h:3045-3065 | the loop over an array of plain values of one type |
| `CppTomlParserObject.TomlParser.ReadArrayArray` | ssar/cpptoml.h:3068-3094 | the loop over an array of arrays |
| `CppTomlParserObject.TomlParser.ReadArray` | ssar/cpptoml.h:2991-3042 | an array: its kind is decided by its first element |
| `CppTomlParserObject.TomlParser.ReadKey` | ssar/cpptoml.h:2177-2209 | a dotted key, with curr_table moving along it |
| `CppTomlParserObject.TomlParser.ReadSingleTable` | ssar/cpptoml.h:1945-2032 | a [table] header: the walk from the root, the new tables on the way, the re-opening of an implied table |
| `CppTomlParserObject.TomlParser.ReadTableArray` | ssar/cpptoml.h:2034-2133 | a [[table array]] header: the walk from the root and one more table in the array |
| `CppTomlParserObject.TomlParser.ReadKeyValue` | ssar/cpptoml.h:2135-2175 | a key and value put into the current table |
| `CppTomlParserObject.TomlParser.ParseAll` | ssar/cpptoml.h:1892-1930 | the loop over the lines |
| `CppTomlParserObject.ParseText` | ssar/cpptoml.h:3231 | a whole text with a new parser |
| `CppTomlParser.WithAt` | ssar/cpptoml.h:1945-2032 | changing the table that curr_table points to is seen at its path, and the path stays valid |
| `CppTomlRoundTrip.ParseIntText` | ssar/cpptoml.h:2656-2809 | a written integer in front of a delimiter is read back, and exactly it is consumed |
| `CppTomlRoundTrip.ParseStringText` | ssar/cpptoml.h:2384-2404 | a written string is read back, and exactly it is consumed |
| `CppTomlRoundTrip.TypeOfText` | ssar/cpptoml.h:2313-2353 | the type of a written value is recognised: never a date, time or float |
| `CppTomlRoundTrip.ParseValueText` | ssar/cpptoml.h:2285-2311 | every printable value is read back from its text, nested arrays included |
| `CppTomlRoundTrip.ParseArrayText` | ssar/cpptoml.h:2991-3094 | every homogeneous array is read back from its text |
| `CppTomlRoundTrip.SimpleKeyText` | ssar/cpptoml.h:2211-2269 | a written key, bare or quoted, is read back in front of a dot, an equals sign or a bracket |
| `CppTomlRoundTrip.ParsePathText` | ssar/cpptoml.h:2177-2209 | a written path is read back part by part while curr_table walks down the tables it names |
| `CppTomlDocument.TableHeaderLine` | ssar/cpptoml.h:1945-2032 | reading a written table header puts one new table at its path and makes it current |
| `CppTomlDocument.ArrayHeaderLine` | ssar/cpptoml.h:2034-2133 | reading a written table array header adds one table to the array at its path and makes it current |
| `CppTomlDocument.ItemLine` | ssar/cpptoml.h:2135-2175 | reading a written item puts its value under its key into the current table |
| `CppTomlDocument.RepeatedItemLine` | ssar/cpptoml.h:2135-2175 | a key that the current table has already is an error |
| `CppTomlDocument.ItemsRead` | ssar/cpptoml.h:3326-3369 | reading the items of a table adds all of them, in order, to the current table |
| `CppTomlDocument.BodyReads` | ssar/cpptoml.h:3326-3369 | reading what is written for a table fills the empty table at the current path with it, whatever stands before and after |
| `CppTomlDocument.ArrayReads` | ssar/cpptoml.h:3399-3410 | reading what is written for a table array rebuilds the array |
| `CppTomlDocument.ParseWritten` | ssar/cpptoml.h:1892-1930 | for every printable tree and indentation, parsing what the writer prints succeeds with that tree, values in front of tables |
| `CppTomlDocument.RoundTrip` | ssar/cpptoml.h:1892-2269 | for every printable tree, parsing what the writer prints gives a tree that stands for the same map |
| `CppTomlSound.WithGrows` | ssar/cpptoml.h:1945-2032 | the whole tree grows, sound as before and with nothing lost, when the table that curr_table points to does |
| `CppTomlSound.HandlePartGrows` | ssar/cpptoml.h:1960-2120 | each key_part_handler, of a table, a table array or a dotted key, only adds to the tree |
| `CppTomlSound.ParseValueSound` | ssar/cpptoml.h:2285-2311 | every value that is read has 64-bit integers and arrays of one type, at every depth |
| `CppTomlSound.ParseKeyValueGrows` | ssar/cpptoml.h:2135-2175 | a key and value only add to the tree |
| `CppTomlSound.ParseLinesGrows` | ssar/cpptoml.h:1892-1930 | from every line on, what has been read stays in the tree: values as they were, tables and table arrays at most longer |
| `CppTomlSound.ParsedIsSound` | ssar/cpptoml.h:1892-1930 | every tree that is read, from any text, has distinct keys in every table, 64-bit integers, arrays of one type and no empty table arrays |
| `CppTomlSound.PrintableTableIff` | ssar/cpptoml.h:3326-3410 | the trees that the round trip covers are exactly the sound ones with clean strings and keys |
| `CppTomlSound.ReprintKeepsMeaning` | ssar/cpptoml.h:1892-1930 | any text that is read and has clean strings and keys can be printed and read again with the same meaning |
| `CppTomlNoise.SkipBlankIs` | ssar/cpptoml.h:3123-3136 | inside an array the next character that matters is found, over blanks, comments and any number of lines; at the end of the text there is an error |
| `CppTomlNoise.SignificantDecides` | ssar/cpptoml.h:1892-1930 | two texts whose lines, without indentation, blank lines and comment lines, are the same are read alike, errors included |
| `CppTomlNoise.NoiseChangesNothing` | ssar/cpptoml.h:1904-1905 | a blank line, or a line of blanks and a comment, at any place between two lines of any text, inside arrays too, leaves what parse returns as it is |
| `CppTomlNoise.LineIsTaken` | ssar/cpptoml.h:1841-1868 | a line ends at the first newline, without a carriage return right in front of it; other carriage returns belong to the line |
| `CppTomlNoise.LineFormIsFree` | ssar/cpptoml.h:1841-1868 | the indentation of a line and its kind of line end make no difference to what parse returns |
| `CppTomlNoise.ParseCommented` | ssar/cpptoml.h:1892-1930 | a printed tree is read back with any comment lines and blank lines added between its lines |
| `CppTomlTails.ValueTailed` | ssar/cpptoml.h:2285-2311 | a value that ends on its line is read alike with blanks and a comment behind it |
| `CppTomlTails.LineTailed` | ssar/cpptoml.h:1892-1930 | so is every header, and every item that ends on its line |
| `CppTomlTails.CommentBehind` | ssar/cpptoml.h:1892-1930 | in a text: behind a header or such an item, blanks and a comment leave what parse returns as it is |
| `CppTomlMeaning.KeyIsWalked` | ssar/cpptoml.h:2177-2209 | parse_key handles all parts of a dotted key but the last, from left to right, and returns the last |
| `CppTomlMeaning.PutIsWalked` | ssar/cpptoml.h:2135-2175 | the walk of curr_table along a dotted key and the insertion at its end put the value under its parts, inside the current table |
| `CppTomlMeaning.OpenIsWalked` | ssar/cpptoml.h:1945-2032 | the walk of curr_table along a [header] opens one table inside the other, with the check for a table that is there |
| `CppTomlMeaning.ElementIsWalked` | ssar/cpptoml.h:2034-2133 | the walk of curr_table along a [[header]] adds one table to the array at its end |
| `CppTomlMeaning.TableIsOpened` | ssar/cpptoml.h:1945-2032 | a [header] leads to a new empty table, or to the one that is there if it has something in it but no single values; then nothing changes |
| `CppTomlMeaning.ElementIsOpened` | ssar/cpptoml.h:2034-2133 | a [[header]] leads to a new empty table at the end of the array, whose other tables stay |
| `CppTomlMeaning.TextIsMade` | ssar/cpptoml.h:1892-1930 | a text that shows statements is accepted if and only if they can stand together, one after the other, and parse returns the tree that they make |
| `CppTomlMeaning.TextIsShown` | ssar/cpptoml.h:1892-1930 | every text that is accepted shows statements, and parse returns the tree that they make |
| `CppTomlLookups.PutHolds` | ssar/cpptoml.h:2135-2175 | a value is found under the parts of its key, and what is under other keys stays |
| `CppTomlLookups.PutAcceptedIff` | ssar/cpptoml.h:2135-2175 | a key is accepted if and only if only tables, or nothing, is on its way and nothing at its end |
| `CppTomlLookups.TableAcceptedIff` | ssar/cpptoml.h:1945-2032 | a [header] is accepted if and only if its parts have names, no value is on the way, and its table is new or may be opened again |
| `CppTomlLookups.ElementAcceptedIff` | ssar/cpptoml.h:2034-2133 | a [[header]] is accepted if and only if its parts have names, no value is on the way, and nothing or a table array is at its end |
| `CppTomlLookups.HeadsAreOpened` | ssar/cpptoml.h:1935-2133 | behind a header in any accepted text, the path of its keys leads to its table: new and empty, or with [x] the one that was there |
| `CppTomlLookups.KeysAreFound` | ssar/cpptoml.h:1892-2175 | in the tree that statements make, each value is found under the parts of its key in the table that the header before it led to, whatever comes later |
| `CppTomlLookups.EveryKeyIsFound` | ssar/cpptoml.h:1892-2175 | so it is in what parse returns for every text that is accepted |
| `CppTomlSpelling.LiteralIsTaken` | ssar/cpptoml.h:2493-2517 | a string in single quotes is taken as it stands, up to the first quote; without one it is an error |
| `CppTomlSpelling.PiecesAreRead` | ssar/cpptoml.h:2493-2627 | a string in double quotes is what its characters, escapes and codes stand for; a code that is no scalar value is an error |
| `CppTomlSpelling.ReadBodyHasPieces` | ssar/cpptoml.h:2493-2627 | every string in double quotes that is accepted is made of such pieces |
| `CppTomlSpelling.UnicodeBytesAreUtf8Iff` | ssar/cpptoml.h:2580-2627 | a code becomes its UTF-8 encoding if and only if it does not take three bytes with bit 11 set |
| `CppTomlSpelling.BrokenCode` | ssar/cpptoml.h:2610 | the code U+0800, whose middle byte loses that bit |
| `CppTomlSpelling.KeyIsRead` | ssar/cpptoml.h:2211-2269 | a part of a key, bare, in single or in double quotes, with blanks around it, is read as its name |
| `CppTomlSpelling.BareIsRefused` | ssar/cpptoml.h:2232-2269 | a bare key with a blank, a hash or an opening bracket inside is an error |
| `CppTomlSpelling.DottedIsRead` | ssar/cpptoml.h:2177-2209 | a dotted key is read as the names of its parts, however they are spelled and spaced |
| `CppTomlSpelling.HeaderIsShown` | ssar/cpptoml.h:1935-2133 | a header of any such key, single or double, with a comment behind it, is shown as that header |
| `CppTomlNumbers.NumberIsRead` | ssar/cpptoml.h:2656-2809 | a sign and groups of digits with underscores between them are the integer of the digits if that has 64 bits, and an error else or with a leading zero |
| `CppTomlLayout.GapIsSkipped` | ssar/cpptoml.h:3123-3136 | blanks, line ends and comments are skipped up to the next character, over lines |
| `CppTomlLayout.NumberIsReadable` | ssar/cpptoml.h:2656-2809 | such a number is read as its integer in front of anything that can follow a value |
| `CppTomlLayout.StringIsReadable` | ssar/cpptoml.h:2384-2404 | so is a string in single or double quotes |
| `CppTomlLayout.BoolIsReadable` | ssar/cpptoml.h:2835-2860 | so are the two booleans |
| `CppTomlArrays.ArrayIsReadable` | ssar/cpptoml.h:2991-3094 | so is an array of values of one type, nested ones included, with blanks, line ends and comments anywhere and a comma behind the last element or not |
| `CppTomlArrays.ItemIsShownAs` | ssar/cpptoml.h:2135-2175 | a dotted key and a value of any such layout, with a comment behind it, are shown as that item |
| `CppTomlArrays.NoiseShows` | ssar/cpptoml.h:1904-1905 | a line of noise shows no statement |
| `CppTomlArrays.HeadShows` | ssar/cpptoml.h:1906-1910 | a line with a header, blanks and a comment shows the header, in front of what the rest of the text shows |
| `CppTomlArrays.ItemShows` | ssar/cpptoml.h:1911-1916 | the lines of an item, with blanks and a comment, show the item, in front of what the rest of the text shows |
| `CTomlUtf8.UcsToUtf8` | sresar/toml.c:178-253 | the bytes of a code are written to the buffer and nothing beyond them; -1 for codes that are refused |
| `CTomlUtf8.Utf8ToUcs` | sresar/toml.c:86-170 | the code and the number of bytes it takes, or -1 |
| `CTomlUtf8.DecodeEncode` | sresar/toml.c:86-170 | decoding an encoded code gives it back and consumes what was produced |
| `CTomlUtf8.DecodeAllEncodeAll` | sresar/toml.c:86-253 | any sequence of legal codes survives encoding and repeated decoding |
| `CTomlUtf8.EncodedOctets` | sresar/toml.c:178-253 | an encoding is a lead byte and continuation bytes, in the number that the size of the code asks for |
| `CTomlUtf8.ShortestForm` | sresar/toml.c:178-253 | no shorter byte sequence decodes to a code than its encoding, and in that length only its encoding does |
| `CTomlScan.NextToken` | sresar/toml.c:1684-1725 | a token starts behind the last one and ends inside the text |
| `CTomlScan.ScanEnd` | sresar/toml.c:1576-1681 | a string, timestamp or literal ends inside the text, not before its start |
| `CTomlScan.SkipGapIsGap` | sresar/toml.c:1697-1722 | what is skipped is blanks, tabs, carriage returns and comments; behind a comment comes a line end |
| `CTomlScan.NextTokenPlaced` | sresar/toml.c:1684-1725 | only a gap lies between two tokens, the kind fits the first character, and the line number is one plus the line ends before |
| `CTomlScan.RunIsTiled` | sresar/toml.c:1684-1725 | in every run of the tokenizer the spans are ordered and disjoint, only gaps lie between them, and all line numbers are right, across multi-line strings too |
| `CTomlScan.StuckLiteral` | sresar/toml.c:1671-1681 | a token of length zero before the end is an empty literal, and it comes again and again |
| `CTomlScan.SingleLoopStops` | sresar/toml.c:1620-1628 | a literal string ends at the first quote, which has to come before any line end |
| `CTomlScan.FindTripleFirst` | sresar/toml.c:1579-1587 | a triple-quoted literal string ends with the first three quotes |
| `CTomlScan.LiteralIsLongestRun` | sresar/toml.c:1671-1681 | a literal is the longest run of its characters, up to a dot where that is special |
| `CTomlScan.OverrunIff` | sresar/toml.c:1660-1669 | the scan runs beyond the end of the text if and only if an unquoted date or time comes next whose timestamp characters go on to the end |
| `CTomlScan.NoOverrun` | sresar/toml.c:1660-1669 | in particular never when the last character cannot stand in a timestamp |
| `CTomlNorm.ReadHex` | sresar/toml.c:513-540 | the hexadecimal digits of a code, or failure |
| `CTomlNorm.NormBasicStr` | sresar/toml.c:451-566 | the loop with its growing buffer computes the normal form: every write, the final NUL included, is inside the buffer |
| `CTomlNorm.PiecesAreScanned` | sresar/toml.c:1630-1658 | the scanner reads every sequence of plain characters, escapes and codes up to the quote behind it |
| `CTomlNorm.NormOfPieces` | sresar/toml.c:451-566 | the normaliser gives what the pieces stand for, or fails exactly on a piece that cannot be expressed |
| `CTomlNorm.ValuesAreShort` | sresar/toml.c:451-566 | what pieces stand for is no longer than their source |
| `CTomlNorm.AcceptedStringNormalises` | sresar/toml.c:1630-1658 | for every single-line basic string that the scanner accepts, the normaliser succeeds if and only if the body has no raw control character and every code can be encoded; its result is the declarative one and no longer than the body |
| `CTomlNorm.HexCodeSnoc` | sresar/toml.c:518-540 | the digits of a code weigh sixteen times as much as those behind them |
| `CTomlWords.TripleIsScanned` | sresar/toml.c:1589-1618 | a triple-quoted basic string ends with the first three quotes in a row, where an escape does not count as standing between |
| `CTomlWords.NormOfParts` | sresar/toml.c:451-566 | the normaliser gives what the characters, escapes, codes and folded line ends of a multi-line string stand for, or fails exactly on one that cannot be expressed |
| `CTomlWords.StampIsTrimmedRun` | sresar/toml.c:1660-1669 | a timestamp is the longest run of its characters, without the spaces at its end |
| `CTomlWords.WordEnds` | sresar/toml.c:1576-1681 | every literal, timestamp and quoted string ends where its text ends, in front of anything that can follow it |
| `CTomlWords.KeyIsNormalised` | sresar/toml.c:570-630 | what each kind of word is as a key: bare if all its characters may be, the text in single quotes, the normal form of the text in double quotes up to its first NUL, and an error with a line end in it |
| `CTomlWords.SkipsNewlines` | sresar/toml.c:850-856 | skip_newlines goes over line ends only, to the first token that is none or the end of the text |
| `CTomlTree.CheckKey` | sresar/toml.c:637-670 | finds an entry of that key among values, arrays and tables, or there is none |
| `CTomlTree.KeyInLists` | sresar/toml.c:1728-1739 | toml_key_in lists the keys of a table in order and then ends |
| `CTomlTree.EachKeyOnce` | sresar/toml.c:1728-1771 | in a table with distinct keys toml_key_in gives each key at exactly one index, and exactly one of the three lookups finds a key that is there, none one that is not |
| `CTomlTree.ExtendsTrans` | sresar/toml.c:926-1101 | growing trees: what an earlier step put there is still there after a later one |
| `CTomlTree.AppendVal` | sresar/toml.c:680-715 | a new value keeps keys distinct and loses nothing |
| `CTomlTree.AppendArr` | sresar/toml.c:767-805 | a new array keeps keys distinct and loses nothing |
| `CTomlTree.AppendTab` | sresar/toml.c:720-762 | a new table keeps keys distinct and loses nothing |
| `CTomlTree.PushTab` | sresar/toml.c:830-847 | one more table in an array of tables keeps it sound |
| `CTomlParser.Next` | sresar/toml.c:1684-1725 | the next token is inside the text and not before the end of the last one; a line end in the text has length one |
| `CTomlParser.SkipNewlines` | sresar/toml.c:850-856 | the loop ends at a token not before the first, although the first and the last line end have length zero |
| `CTomlParser.ParseKeyval` | sresar/toml.c:1034-1101 | the mutual recursion ends on every text: a key and value take the token strictly forward |
| `CTomlParser.ParseTable` | sresar/toml.c:869-907 | an inline table takes the token strictly forward |
| `CTomlParser.ParseArray` | sresar/toml.c:926-1026 | an array takes the token strictly forward, however many line ends and nested arrays it has |
| `CTomlParser.FillPath` | sresar/toml.c:1114-1158 | the keys of a header: between one and ten of them, and then its bracket |
| `CTomlParser.WalkPath` | sresar/toml.c:1164-1231 | the path that is walked exists in the tree with the implied tables |
| `CTomlParser.ParseSelect` | sresar/toml.c:1235-1329 | a header takes the token strictly forward to a line end, and curtab is in the tree |
| `CTomlParser.KeepPath` | sresar/toml.c:1384-1392 | a changed current table is found at its path again |
| `CTomlSound.KeyvalIsLookedUp` | sresar/toml.c:1034-1083 | a plain key and value is accepted if and only if the table has no entry of that key and the scan goes on; then toml_raw_in finds it, and no other lookup changes |
| `CTomlSound.ParseKeyvalGrows` | sresar/toml.c:1034-1101 | reading a key and value keeps every table and array sound and loses nothing |
| `CTomlSound.ParseArraySound` | sresar/toml.c:926-1026 | an array has one kind of elements, and a value array one value type |
| `CTomlSound.ParseSelectGrows` | sresar/toml.c:1235-1329 | a header keeps the tree sound and loses nothing |
| `CTomlSound.ParseLoopGrows` | sresar/toml.c:1376-1401 | from every point of the main loop on, what has been read stays in the tree |
| `CTomlSound.ParsedIsSound` | sresar/toml.c:1334-1406 | in every tree of a successful parse no table holds a key twice across values, arrays and tables, every array has one kind, and every value array one value type |
| `CTomlContents.DottedIsLookedUp` | sresar/toml.c:1034-1056 | a dotted key reads the rest into the table of its first part, new if there is none; no other lookup changes |
| `CTomlContents.ArrayIsLookedUp` | sresar/toml.c:1083-1089 | an array is accepted under a key if and only if the table has no entry of that key; then toml_array_in finds it and no other lookup changes |
| `CTomlContents.InlineTableIsLookedUp` | sresar/toml.c:1090-1096 | an inline table is read into the table under its key, new or only implied so far; no other lookup changes |
| `CTomlContents.ElementIsAppended` | sresar/toml.c:936-1009 | an element is put behind those before it, and a plain value is the text of its token |
| `CTomlContents.ElementsInOrder` | sresar/toml.c:926-1026 | the elements of an array stand in the order in which they are read |
| `CTomlHeaders.WalkReaches` | sresar/toml.c:1164-1231 | walk_tabpath ends at the table that the lookups find under the keys, or at a new implied one |
| `CTomlHeaders.PathReaches` | sresar/toml.c:1164-1231 | in a sound tree the table at the path of curtab is the one that the lookups find |
| `CTomlHeaders.WalkStep` | sresar/toml.c:1170-1227 | one round of the loop of walk_tabpath, for a found table, the last table of an array, and a missing one |
| `CTomlHeaders.HeaderOpens` | sresar/toml.c:1235-1329 | after a header, curtab is the table that the lookups find under all its keys: for [x] new, or implied so far and with what is in it; for [[x]] new and empty; nothing else is lost |
| `CTomlMeaning.PairIsPut` | sresar/toml.c:1034-1101 | reading the tokens of a key and value puts that value under the parts of that key |
| `CTomlMeaning.PairsArePut` | sresar/toml.c:869-907 | reading the tokens of an inline table puts all its pairs, one after the other, into one table |
| `CTomlMeaning.ElemsArePut` | sresar/toml.c:926-1026 | reading the tokens of an array puts all its elements, nested arrays and tables with their contents, one after the other, into one array |
| `CTomlMeaning.HeadIsOpened` | sresar/toml.c:1235-1329 | reading the tokens of a header opens its keys |
| `CTomlMeaning.ShownIsRun` | sresar/toml.c:1376-1401 | from every token on, the main loop runs the statements that the tokens show, each in the table of the header before it |
| `CTomlMeaning.TextIsMade` | sresar/toml.c:1334-1406 | toml_parse of a text that shows statements returns the tree that they make one after the other, or their error |
| `CTomlMeaning.TextIsShown` | sresar/toml.c:1334-1406 | every text that is accepted shows statements |
| `CTomlMeaning.ParseIsMade` | sresar/toml.c:1334-1406 | toml_parse accepts a text if and only if it shows statements that can be carried out one after the other, and returns the tree that they make |
| `CTomlLookups.PutHolds` | sresar/toml.c:1034-1101 | a value that is put is found under the parts of its key, with all its elements and pairs at every depth |
| `CTomlLookups.PutIsLocal` | sresar/toml.c:1034-1101 | and no lookup of another first part changes |
| `CTomlLookups.PutPairsHold` | sresar/toml.c:869-907 | of an inline table every pair is found, so none that is read on the way is lost |
| `CTomlLookups.PutElemsHold` | sresar/toml.c:926-1026 | an array has just its elements, in order, nested arrays and tables with their contents |
| `CTomlLookups.HeadsAreOpened` | sresar/toml.c:1235-1329 | behind a header, the lookups of its keys lead to its table: new and empty, or with [x] what was only implied so far |
| `CTomlLookups.KeysAreFound` | sresar/toml.c:1376-1401 | in the tree that statements make, each value is found under the parts of its key in the table that the lookups along the header before it led to, whatever comes later |
| `CTomlLookups.EveryKeyIsFound` | sresar/toml.c:1334-1406 | so it is in what toml_parse returns for every text that it accepts |
| `CTomlAccepts.PairsAreLocal` | sresar/toml.c:869-907 | an inline table has no lookups but those of its pairs and the ones it had |
| `CTomlAccepts.PutAcceptedIff` | sresar/toml.c:1034-1101 | a key and value are accepted if and only if the place of the key is free, or only implied for an inline table, and what is inside the value is accepted |
| `CTomlAccepts.ElemsAcceptedIff` | sresar/toml.c:926-1026 | the elements of an array are accepted if and only if they have one kind, plain ones one type, and what is inside is accepted |
| `CTomlAccepts.WalkAcceptedIff` | sresar/toml.c:1164-1231 | the keys in front of the last one of a header are accepted if and only if tables, or arrays of tables, or nothing is on the way |
| `CTomlAccepts.HeadAcceptedIff` | sresar/toml.c:1235-1329 | a header is accepted if and only if its way is, and nothing is at its end, or an implied table for [x], or an array of tables for [[x]] |
| `CTomlLines.TextShows` | sresar/toml.c:1334-1406 | a text in lines, of headers and of keys with plain values in any spelling, with blanks, blank lines and comments, shows just the statements of its lines |
| `CTomlSections.SectionsRun` | sresar/toml.c:1376-1401 | sections [x] or [[x]] with distinct names, and distinct keys in each, are accepted and make one table each, with just its keys and values |
| `CTomlSections.SectionsAreFound` | sresar/toml.c:1334-1406 | written as lines, they are read by toml_parse to that tree, and toml_raw_in finds each value in the table under the name of its section |
| `CTomlParserObject.Context.ScanString` | sresar/toml.c:1576-1681 | the scanner loops set the token to the string, timestamp or literal |
| `CTomlParserObject.Context.NextTok` | sresar/toml.c:1684-1725 | the loops over the eaten token and the gap set the next token |
| `CTomlParserObject.Context.SkipLines` | sresar/toml.c:850-856 | the loop of skip_newlines |
| `CTomlParserObject.Context.KeyvalInto` | sresar/toml.c:1034-1101 | parse_keyval moves the token and adds to the table as specified |
| `CTomlParserObject.Context.TableInto` | sresar/toml.c:869-907 | parse_table moves the token and adds to the table as specified |
| `CTomlParserObject.Context.ArrayInto` | sresar/toml.c:926-1026 | parse_array moves the token and fills the array as specified |
| `CTomlParserObject.Context.FillTabpath` | sresar/toml.c:1114-1158 | fill_tabpath moves the token and fills tpath |
| `CTomlParserObject.Context.WalkTabpath` | sresar/toml.c:1164-1231 | the loop that moves curtab from the root is the recursive walk |
| `CTomlParserObject.Context.SelectTable` | sresar/toml.c:1235-1329 | parse_select moves the token and sets root and curtab as specified |
| `CTomlParserObject.Context.ParseStatements` | sresar/toml.c:1376-1401 | the main loop, from any state |
| `CTomlParserObject.Context.Parse` | sresar/toml.c:1334-1406 | toml_parse on the context returns what the specification does |
| `LoadRing.CircularLinkedlistInit` | sresar/collection.c:23-48 | for every size of at least two, next and prev form one ring of the nodes in order, and load1 is zero; no other field is written |
| `LoadRing.OneCycle` | sresar/collection.c:23-48 | next goes once through the whole list and back to its start |
| `LoadRing.NextPrevInverse` | sresar/collection.c:23-48 | next and prev undo each other |
| `LoadRing.BackIs` | sresar/collection.c:23-48 | prev followed m times is the node m places behind |
| `LoadHistory.PrevState` | sresar/sresar.c:187-197 | zero if and only if none of the latest records has a zoom state |
| `LoadHistory.Round` | sresar/sresar.c:1687 | to the nearest integer, halves away from zero |
| `LoadHistory.Truncate` | sresar/sresar.c:1679 | towards zero |
| `LoadHistory.TriggeredIff` | sresar/sresar.c:1674-1695 | a record triggers collection if and only if it is over its threshold and rises by five percent in both loads or has no trigger among the nine before it |
| `LoadHistory.RiseIff` | sresar/sresar.c:1690 | a rise: both loads are more than a twentieth above those of the record before |
| `LoadHistory.RecordHolds` | sresar/sresar.c:1673-1696 | a record holds a new load1, the integer part of it or the estimate rounded, and the zoom state 3 if it triggers, else 0 |
| `LoadHistory.CloseTriggersRise` | sresar/sresar.c:1687-1693 | of two triggers fewer than ten records apart the later one is such a rise |
| `LoadHistory.OverIsCovered` | sresar/sresar.c:1676-1695 | a record over its threshold has a trigger among itself and the nine before; with nine real predecessors a real one, whatever the nodes held at the start |
| `LoadHistory.FirstRecord` | sresar/sresar.c:1676-1684 | the first record triggers if and only if it is over the threshold and none of nine uninitialised nodes holds a zoom state |
| `LoadHistory.TriggersAreSparse` | sresar/sresar.c:187-197 | among any N successive records without a rise at most N/10, rounded up, trigger |
| `LoadHistory.TriggersAreFrequent` | sresar/sresar.c:187-197 | among any N successive records over their threshold at least N/10, rounded down, trigger |
| `LoadHistory.LoadsIgnoreStart` | sresar/sresar.c:1673-1696 | loads and load states of all records depend on the readings alone, not on what the nodes held at the start |
| `LoadInversion.EstimateError` | sresar/sresar.c:1685-1687 | what load5s rounds is the number of active tasks with an error between -0.2 and 0.07 |
| `LoadInversion.Load5sIsActive` | sresar/sresar.c:1685-1687 | for readings one kernel step apart load5s is exactly the number of active tasks, for both roundings of calc_load |
| `LoadInversion.RecordsHoldActive` | sresar/sresar.c:1673-1696 | along every run that follows the kernel, each record of the 5s type holds the number of active tasks, and it is over its threshold if and only if that number is |
| `LoadSampler.Sampler.constructor` | sresar/sresar.c:1537-1544 | the thread starts with 16 nodes that hold anything but a load1 of zero |
| `LoadSampler.Sampler.GetPrevnodeState` | sresar/sresar.c:187-197 | the loop along prev is the specification on the history |
| `LoadSampler.Sampler.Sample` | sresar/sresar.c:1668-1715 | an unchanged reading or one under hour_lock leaves ring, history and file as they are; any other adds the record of the specification, moves one node on, writes its line unless space is short, and starts collection if the record says so |
| `LoadSampler.TypeIs5sIff` | sresar/sresar.c:1676-1686 | the type in a line is 5 if and only if this reading and the one before both show a load, else 1 |
| `LoadSampler.PrevLeadsToLatest` | sresar/sresar.c:1668-1715 | after any run, prev followed m times from the current node, m up to 16, leads to the m-th latest record of the unbounded history |
| `Rotation.StepKeepsInvIff` | sresar/sresar.c:446-505 | a step of clock, rotation, gates or recyclers keeps the invariant if and only if it is orderly: only a second reading of the clock in a new hour, a pass by number over everything, and the removal of the newest directory for space break it |
| `Rotation.StampMeansLive` | sresar/sresar.c:446-505 | at every moment of every orderly run: while hour_timestamp_lock is the current hour, data_path_hour names its directory, it exists, and load5s_fd refers into it |
| `Rotation.GateFindsLiveIff` | sresar/sresar.c:772-793 | a collector that passes its gate finds a live current directory if and only if it read the lock first, or the hour it read is still the current one, or the next directory is already in use |
| `Rotation.StaleGate` | sresar/sresar.c:1225-1246 | a run in which the hour ends between reading the clock and reading the lock: the collector passes, and nothing of the current hour is there |
| `Rotation.RecordsHaveADirectory` | sresar/sresar.c:455-479 | load5s_fd refers into an existing directory at every moment; it is the one of data_path_hour exactly unless a rotation is, or has given up, between naming a new hour and switching to it |
| `Rotation.StampIff` | sresar/sresar.c:448-494 | whatever the clock does: the lock that a rotation writes belongs to the directory it has published if and only if its two readings of the clock gave one hour |
| `Rotation.TornRotation` | sresar/sresar.c:448-494 | a run in which they do not: the lock is the current hour, and no directory of it is there |
| `Rotation.VisitRemovesNewestIff` | sresar/sresar.c:271-303 | whatever space does: a visit removes the newest directory if and only if it is visited, a shortage is reported and removals are left; then an older one was kept |
| `Rotation.NewestRemoved` | sresar/sresar.c:271-303 | a run in which that happens to the current directory |
| `Rotation.RotationPublishes` | sresar/sresar.c:446-496 | a rotation that nothing disturbs makes the new hour live |
| `Rotation.TrimPass` | sresar/sresar.c:231-269 | a pass by number removes just the directories it set out to remove |
| `Rotation.RotationTrims` | sresar/sresar.c:497-499 | after a rotation and such a pass, all but the oldest ones over the limit, five at most, remain |
| `Rotation.VisitPass` | sresar/sresar.c:271-303 | a pass by space removes what the recycler frees for the results of its checks |
| `Rotation.GateGivesUp` | sresar/sresar.c:772-793 | a collector that finds the lock of another hour each time gives up at the 1002nd comparison, and not before |
| `Recycling.EntriesAreTheRest` | sresar/sresar.c:252-257 | wherever . and .. stand in a listing, the entries are the other names, in order |
| `Recycling.RecycleDiskspaceHour` | sresar/sresar.c:231-269 | from a listing with . and .. anywhere, the oldest are removed, in order: the excess over the limit, five at most |
| `Recycling.RotationsKeepNewest` | sresar/sresar.c:497-499 | for any limit, after k rotations exactly the newest directories remain, at most max(limit, 0, c0-4k) of them, and no fewer than the limit where there were enough |
| `Recycling.NewestSurvivesIff` | sresar/sresar.c:231-269 | the newest directory survives a pass if and only if the limit is positive or there are more than five |
| `Recycling.FreesShortestPrefix` | sresar/sresar.c:271-303 | when nothing else changes the space, usage recycling removes exactly the shortest run of oldest directories that makes it sufficient, min(5, count-1) at most, never the newest |
| `Recycling.NewestIsFreedIff` | sresar/sresar.c:271-303 | whatever the checks say, the newest directory is removed if and only if the check at it reports a shortage with removals left, and then some older one was kept |
| `Recycling.NewestCanBeFreed` | sresar/sresar.c:271-303 | with two directories and a shortage at the second check only, the newest is removed |
| `Recycling.ShortageIff` | sresar/sresar.c:211-225 | a shortage in whole numbers: 100 bavail < (100 - disk_use) blocks, or the same for inodes, or fewer bytes than the mebibytes asked for; without any blocks or inodes there is none of them |
| `Recycling.MoreIsEnough` | sresar/sresar.c:211-225 | more free blocks or inodes never turn enough into a shortage |
| `Recycling.RecyclesUntilEnough` | sresar/sresar.c:271-303 | when the space depends on how many directories are gone, the oldest are removed until there is no shortage, five at most, never the newest |
| `Recycling.Options.CheckPartitionUsage` | sresar/sresar.c:205-229 | the three thresholds, in whole numbers, the flag, and a failing statvfs that is a shortage but leaves the flag |
| `Recycling.Options.RecycleDiskspaceUsage` | sresar/sresar.c:271-303 | the loop removes what the specification says and leaves partition_insufficient equal to the condition at the end; with fewer than two directories nothing is done |
| `CollectConfig.PrefixOrder` | sresar/sresar.c:2206-2222 | among prefixes of one release, the order of strcmp is the order of lengths |
| `CollectConfig.SortSpecials` | sresar/sresar.c:2206-2222 | the exchange sort permutes the used entries into descending order and leaves the rest |
| `CollectConfig.FindCollect` | sresar/sresar.c:156-167 | whether the path is in the list; no answer if the list fills its array without it, so that the search goes on behind it |
| `CollectConfig.Merge` | sresar/sresar.c:2229-2254 | both loops stay in the array if and only if the first-wins list of the applicable specials and the defaults has at most 256 entries, and then build it |
| `CollectConfig.OverrunIff` | sresar/sresar.c:2229-2254 | some search of the merge goes on behind the array if and only if the defaults and the applicable specials have more than 256 paths between them |
| `CollectConfig.MergedCount` | sresar/sresar.c:2229-2254 | the list has as many entries as there are paths among the defaults and the applicable specials, however they are sorted |
| `CollectConfig.MergedWins` | sresar/sresar.c:2231-2254 | each entry comes from the longest key that is a prefix of the release, or is the first default of its path if no special applies |
| `CollectConfig.MergedIsLayered` | sresar/sresar.c:2206-2254 | the merged list has each path once, every path that applies, and for each the entry that wins |
| `CollectConfig.TargetIsWinner` | sresar/sresar.c:2256-2281 | every file to collect comes from the winning entry of its path, which is turned on: an override that is turned off suppresses the default |
| `CollectConfig.TargetsMembers` | sresar/sresar.c:2256-2281 | a file is collected exactly for an entry that is turned on and whose path is a regular file, while the log is open |
| `CollectConfig.TargetsInOrder` | sresar/sresar.c:2256-2281 | the files stand in the order of their entries, one for each entry that is turned on and regular |
| `CollectConfig.PrefixIff` | sresar/sresar.c:2235-2238 | a key applies to a release exactly if the release starts with it |
| `CollectConfig.InitSysConfig` | sresar/sresar.c:2206-2284 | sort, merge and selection together, for any number of paths: a result if and only if there are at most 256 |
| `ConfigSections.Common` | ssar/CLI11.hpp:7737-7744 | the number of leading parents that two paths share |
| `ConfigSections.SplitJoins` | ssar/CLI11.hpp:179-192 | the pieces of a name hold no dots and, joined with dots, are the name, but for one dot at its end |
| `ConfigSections.EntryLands` | ssar/CLI11.hpp:7834-7850 | an entry comes last, under the path of its section and the leading parts of its own name, with its values; next to an entry of that name and place the two are one item with the values of both; all else stays |
| `ConfigSections.EnteredReplays` | ssar/CLI11.hpp:7723-7769 | behind the close event of any section, entering any other leaves exactly the prefixes of the new path open |
| `ConfigSections.StackIsPrefixes` | ssar/CLI11.hpp:7789-7810 | behind every header, and throughout its section, the open paths are exactly the prefixes of the section |
| `ConfigSections.NestsIff` | ssar/CLI11.hpp:7772-7863 | the events of a text replay as a well-nested stack that is empty in the end if and only if every re-opening of the default section from a section of several parts is followed at once by the header of a section |
| `ConfigSections.NoReopeningNests` | ssar/CLI11.hpp:7772-7863 | in particular the events of a text that never re-opens the default section nest well |
| `ConfigSections.StrandedText` | ssar/CLI11.hpp:7772-7863 | a text that fails: [a.b], [default], and an entry |
| `ConfigSections.StrandedHeader` | ssar/CLI11.hpp:7762-7769 | with a section left open, the first event of the next header does not fit |
| `ConfigReader.Config.CheckParentSegments` | ssar/CLI11.hpp:7723-7769 | the loops that push and pop the output compute the specification |
| `ConfigReader.Config.TakeLine` | ssar/CLI11.hpp:7782-7850 | one line of from_config: header, entry, merge with the entry before, or nothing |
| `ConfigReader.Config.Run` | ssar/CLI11.hpp:7772-7863 | from_config on a whole text |
| `ConfigLines.HeaderIsRead` | ssar/CLI11.hpp:7787-7806 | [s] and [[s]], with white space around them, are the header of s |
| `ConfigLines.BlankIsRead` | ssar/CLI11.hpp:7807-7813 | empty lines and lines that start with a comment character are skipped |
| `ConfigLines.EntryIsRead` | ssar/CLI11.hpp:7815-7838 | a name, the delimiter and a text, with white space anywhere around them, are the entry of that name with the values of that text |
| `ConfigLines.FlagIsRead` | ssar/CLI11.hpp:7829-7838 | a name without a delimiter is the entry of that name with the value true |
| `ConfigLines.TrimParts` | ssar/CLI11.hpp:238-267 | every line is its trimmed text with white space around it |
| `ConfigLines.DefaultIff` | ssar/CLI11.hpp:7800-7801 | the default section is the one named default, in upper or lower case |
| `ConfigLines.SectionPath` | ssar/CLI11.hpp:7698-7720 | the path of a section is its parts, without the quotes around them |
| `ConfigLines.DottedName` | ssar/CLI11.hpp:7698-7720 | a dotted name adds its leading parts to the path of its section, and its last part is the name, all without quotes |
| `Shuffle.Randomlize` | sresar/utils.c:90-104 | the in-place swaps give the order that the draws pick, and leave what is behind the first n entries |
| `Shuffle.PickedPermutes` | sresar/utils.c:97-103 | whatever is drawn, the result is a permutation |
| `Shuffle.DrawsAreBijective` | sresar/utils.c:97-103 | for distinct entries the sequences of draws and the permutations correspond one to one |
| `Shuffle.AllDrawsComplete` | sresar/utils.c:97-103 | the enumeration has exactly the sequences of draws |
| `Shuffle.AllDrawsDistinct` | sresar/utils.c:97-103 | the enumeration has none of them twice |
| `Shuffle.SamplesAreFair` | sresar/sresar.c:1350-1363 | every sample of k different entries, in every order, comes up for exactly (n-k)! of the n! draws |
| `Shuffle.StackSample` | sresar/sresar.c:1350-1363 | the stacks that are read: all of them in order, or the first 100 of the random order |

## Left out

- CppTomlParserObject.ParseText: floats, dates, times, inline tables, multi-line strings and integers in other bases end in `Unsupported`; the writer model has no such values.
- CppTomlParserObject.TomlParser.ReadNumber: integers in other bases, inf, nan and floats are answered with `Unsupported`.
- CppTomlParserObject.TomlParser.ReadArray: arrays of dates, times, floats and inline tables are answered with `Unsupported`.
- CppTomlParserObject.TomlParser.ReadTableArray: the refusal to append to an array that was declared inline, because the model reads no inline tables and so no such arrays.
- The inline flag of tables, and the wording and line numbers of errors, in `ssar/cpptoml.h`.
- The pointers `curr_table` and `curtab`: both are paths of keys into a tree of values, so sharing of one table by two pointers is not modelled.  A path into a table array means its last table.
- The tables and arrays of `sresar/toml.c` are values that the methods return; growth in place is not modelled.
- CTomlScan.ScanEnd: an unquoted timestamp that reaches the end of the text makes the original read on behind its NUL (`sresar/toml.c:1663`); the model ends with `Overrun` there, exactly in the cases of `CTomlScan.OverrunIff`, and says nothing about what is read.
- CTomlNorm.AcceptedStringNormalises: single-line strings only, because for triple-quoted strings the scanner does not reset its count of quotes at an escape (`sresar/toml.c:1593-1611`), so scanner and normaliser do not agree on them; `CTomlWords.TripleIsScanned` and `CTomlWords.NormOfParts` say what each does.
- CTomlLines.TextShows: one-part keys and plain values; dotted keys, arrays and inline tables are covered from their tokens on.
- CppTomlTails.CommentBehind: for items that end on their line; inside and behind an array over several lines, comments are covered by `CppTomlArrays.ItemIsShownAs`.
- CppTomlArrays.ItemShows: blanks in front of the item are its first parameter, so the first part of the key has none.
- CTomlParserObject.Context.Parse: allocation failure is not modelled, and how the raw text of an array element is classified (valtype) is a parameter; nothing depends on it.
- `toml_parse_file`, the conversions toml_rtoi, toml_rtod, toml_rtots and toml_rtos, and the memory hooks of `sresar/toml.c`.
- LoadHistory.TriggeredIff: the five-percent test is over exact reals; the original computes it in doubles.
- LoadInversion.EstimateError: exact arithmetic; the rounding of doubles in the formula is not modelled.
- LoadInversion.Load5sIsActive: exact arithmetic, and readings one kernel step apart; samples where the kernel has advanced more than once or the shown load1 has not changed between records are left out.
- LoadInversion.RecordsHoldActive: the same, along a run.
- LoadSampler.Sampler.Sample: the time in the line of a record; the eventfd is a count of triggers.
- Rotation.StampMeansLive: for orderly runs, where a rotation reads one hour for the name and for the lock, the limit is positive or more than five directories are there, and the newest directory is not removed for space; `Rotation.StepKeepsInvIff` says that the invariant needs exactly this, and `Rotation.StampIff` and `Rotation.VisitRemovesNewestIff` what happens otherwise.
- Rotation.RecordsHaveADirectory: for orderly runs as well.
- Rotation.GateFindsLiveIff: for orderly runs as well.
- One number stands for an hour's name, which is local time, and for its timestamp, which is a multiple of 3600 seconds: in zones that are not whole hours from it the two begin at different times, and where the clock is set back names repeat; both are left out.  The clock does not go back and later hours have larger names.  init_env reads one hour.
- The threads of the rotation are one state machine over single accesses to shared fields, not methods, because any two of their steps can interleave.  A comparison of a gate is one step with its second reading.
- The log file of a rotation but for a failure to open it, its timers and its recycling passes over log files; a failed step ends the thread as in the original.
- Recycling.RotationsKeepNewest: one new directory in a rotation, and removals succeed.
- Recycling.RecycleDiskspaceHour: wrap-around of the count minus a limit near the smallest int.
- Recycling.Options.CheckPartitionUsage: quotients are reals where the original computes floats.
- What removing a directory does inside it, symbolic links included.
- CollectConfig.MergedIsLayered: for entries with the same key and the same path the exchange sort, which is not stable, decides; the lemma says only that one of them wins.
- CollectConfig.InitSysConfig: what happens once a search has gone on behind the array; the model ends there without a result, exactly with more than 256 paths.
- The reading of `/etc/ssar/sys.conf` into entries, which must fit their two arrays of 256, and the messages about files that are missing.
- ConfigSections.NestsIff: for texts without a key named "++" or "--", which the replay could not tell from an event.
- ConfigReader.Config.TakeLine: how a value is split and unquoted is a parameter of the reader.
- ConfigReader.Config.Run: how values are split and unquoted is a parameter of the reader.
- Option parsing and help in `ssar/CLI11.hpp`.
- Shuffle.SamplesAreFair: counts draws `rand() % (n - i)`; that rand() makes them equally likely is not modelled.
- `sresar/readprocess.c`, `ssar/gzstream.hpp`, `ssar/ssar.h`, `ssar/ssar+.py`, packaging and shell scripts: input, output and declarations.
