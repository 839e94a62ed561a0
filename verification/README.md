# Verified models of the transfer, streaming and measurement programs

This project models the parts of the repository where the logic is hardest and proves what they are for.

- **cJSON** (`proj4/iperf-3.10.1/src/cjson.c`). The parser and the printer are classes over a buffer, an offset
  and a depth (`JsonParseBuffer`, `JsonPrintBuffer`). Each method is proved against a pure function: the text of
  a tree is a list of tokens and white space (`JsonText`), the tokens at an offset are read by `JsonLex`, and
  `JsonParse` is the recursive descent over them. `JsonGrammar` is an independent reference, `JsonLiteral` the
  meaning of string literals after RFC 8259, `JsonDocument` that of whole texts, byte for byte. `JsonStringExact` and
  `JsonLexExact` say what is read in a buffer of any bytes, `JsonFailure` where and how the rest is refused,
  `JsonOverrun` when the parser reads behind a buffer, `JsonLayout` what printed text looks like; `JsonCompare`
  treats comparison and duplication. The main results are `RoundTrip`, `DocumentIsRead`, `ParserIsExact`,
  `FailureIsExact`, `StringIsExact`, `TokenIsExact`, `ParsesLiteral`, `TextIsCompact`, `TextIsFormatted`,
  `AllocationSuffices`, `OverrunIsCut`, `PrintPreallocated` and `CompareDuplicate`.
- **Timers** (`timer.c`, `iperf_time.c`). `Timers` relinks real nodes; `TimerSpec` is the same on sequences and
  says what a run amounts to.
- **File transfer** (`proj1`). `TransferProcesses` holds the two event loops, `Transfer` their state as a value,
  `TransferProtocol` all runs over a network that loses, duplicates and reorders. The receiver's window is a list
  of references to one message buffer, as in the program.
- **Control connection** (`iperf_client_api.c`, `iperf_server_api.c`). `ControlProtocol` joins the two sides by
  byte pipes in which bytes arrive one at a time; `ControlProcesses` holds the two sides, `JsonFrame` the frames.
- **Streams and measurement** (`iperf_api.c`, `iperf_udp.c`, `iperf_tcp.c`). `Streams`, `UdpLoss`,
  `StreamCounters`, `RateWindow`, `Pacing`.
- **Real-time server** (`proj2`). `CacheProcesses`, `Cache` and `CacheProtocol`, built like the file transfer.

What the model takes from its surroundings:

- Bytes are integers from 0 to 255 and bit operations are written as the equal arithmetic. Number tokens are the
  digits `sprintf` prints; the conversion to a double is foreign, how much text `strtod` takes is modelled. Where
  numbers are compared, the conversion is a parameter and the results hold for every conversion.
- A parse buffer is any sequence of bytes, as `cJSON_ParseWithLength` takes it; `cJSON_Parse` passes a text and its
  terminating NUL. The byte that memory holds behind the buffer is a parameter. Allocation in the parser succeeds;
  in the printer it may be refused at every step.
- Timer callbacks leave the timer lists alone, timestamps are normalised, periodic timers have a period of at
  least a microsecond, and rescheduled times fit the 32-bit seconds.
- File transfer: one sender, one session, before the 10-second reset, not blocked at the start. A demand arrives
  only while its number is in the sender's window, because the result of `find_if` is used unchecked.
- Control connection: one client, no abort and no timeout; both sides agree on the number of streams, which the
  parameters carry. Data connections are accepted in the order they were opened.
- Real-time server: one client. The reply to a calibration request is a message of its own that carries no data
  sequence number. The first packet of any kind that reaches the client is taken for the calibration.
- Throttle checks happen when some time has passed since the start; at zero the program divides by zero.

Where the code and its comments disagree, the model follows the code: a buffer two bytes longer than the text is
enough for `cJSON_PrintPreallocated`, where the header file asks for five; `iperf_add_stream` never gives out the
number 2; and `parse_object`, which checks the offset against the length everywhere else, does not do so
in front of a name.

## Model

| member | source | states |
|---|---|---|
| `JsonParseBuffer.ParseBuffer.ParseHex4` | proj4/iperf-3.10.1/src/cjson.c:620-653 | The value of four hexadecimal digits, or 0 as soon as one of the four bytes is none. |
| `JsonParseBuffer.ParseBuffer.Encode` | proj4/iperf-3.10.1/src/cjson.c:720-769 | The bytes written back to front are the UTF-8 encoding (section 3 of RFC 3629) of the code point, and nothing in front of them changes. |
| `JsonParseBuffer.ParseBuffer.Utf16LiteralToUtf8` | proj4/iperf-3.10.1/src/cjson.c:657-775 | How many bytes a \u literal takes (6, 12 for a surrogate pair, 0 for a failure) and the bytes it puts at the output position. |
| `JsonParseBuffer.ParseBuffer.ScanSize` | proj4/iperf-3.10.1/src/cjson.c:791-814 | In a buffer of any bytes, terminated or not: the size scan finds the closing quote and counts the backslash pairs in front of it, or finds neither, a backslash as the last byte included. |
| `JsonParseBuffer.Room` | proj4/iperf-3.10.1/src/cjson.c:791-882 | One turn of the decoding loop, in step with the scan or not, keeps the written bytes within what the scan allowed for. |
| `JsonParseBuffer.AllocationSuffices` | proj4/iperf-3.10.1/src/cjson.c:791-882 | For every buffer, malformed \u digits included: the decoded bytes are no more than the allocation length the scan computed. |
| `JsonParseBuffer.ParseBuffer.DecodeStep` | proj4/iperf-3.10.1/src/cjson.c:829-880 | One turn of the loop: the bytes read and written, all inside the output, or the failure of the decoding at this byte. |
| `JsonParseBuffer.ParseBuffer.DecodeInto` | proj4/iperf-3.10.1/src/cjson.c:824-882 | The loop writes exactly the decoded string into an array of allocation_length + 1 bytes, leaves its last byte to the terminator, reads no further than the closing quote, and stops where the decoding is stuck. |
| `JsonParseBuffer.ParseBuffer.ParseString` | proj4/iperf-3.10.1/src/cjson.c:778-904 | In a buffer of any bytes, terminated or not: the stored C string and the offset behind the quote, or the failure with the offset it leaves. At the end of the buffer it looks at one byte behind it and fails whatever that byte is; nothing else is read there. |
| `JsonStringExact.StringIsExact` | proj4/iperf-3.10.1/src/cjson.c:778-904 | In a buffer of any bytes: parse_string succeeds, with exactly this string and offset, exactly on a quote, pieces and a closing quote. A piece is a byte other than a backslash; a backslash with one of the eight letters 34, 47, 92, 98, 102, 110, 114, 116; or a backslash, u and four bytes, whose value is 0 as soon as one is no digit. A closing quote not behind a backslash ends the text, and only digits that hold a quote or a backslash can put the pieces one byte past it. Any other escape is refused. |
| `JsonStringExact.RefusedAt` | proj4/iperf-3.10.1/src/cjson.c:778-904 | Where a refused string leaves the offset: behind its first byte when there is no closing quote, else at the first piece that cannot be read. |
| `JsonStringExact.InStep` | proj4/iperf-3.10.1/src/cjson.c:824-882 | Unless bad digits hold a quote or a backslash, the pieces end at the closing quote and no quote is copied. |
| `JsonStringExact.HexDigitsMean` | proj4/iperf-3.10.1/src/cjson.c:620-653 | Four digits, in either case, mean the number that is written with them, highest digit first. |
| `JsonLiteral.ParsesLiteral` | proj4/iperf-3.10.1/src/cjson.c:778-904 | On every literal of section 7 of RFC 8259 that is valid UTF-8: success exactly when all surrogates are paired, and then the UTF-8 encoding of the denoted characters, pairs decoded as in section 2.2 of RFC 2781, up to a NUL, and the offset behind the quote. |
| `JsonLiteral.ParsedLiteralDecodes` | proj4/iperf-3.10.1/src/cjson.c:778-904 | Decoding the stored bytes as UTF-8 gives the denoted characters up to the first U+0000, and so all of them exactly when none is U+0000. |
| `JsonLiteral.CStrOfCharacters` | proj4/iperf-3.10.1/src/cjson.c:778-904 | A C string cut from encoded characters ends between two characters, in front of the first U+0000. |
| `JsonLiteral.DecodeDenotes` | proj4/iperf-3.10.1/src/cjson.c:824-882 | The decoding loop agrees with the denotation of a literal, and is stuck exactly when a surrogate stands alone. |
| `JsonLiteral.ScanFindsQuote` | proj4/iperf-3.10.1/src/cjson.c:791-810 | The size scan is not misled by escapes: it finds the quote that closes the literal. |
| `Unicode.Utf8RoundTrip` | proj4/iperf-3.10.1/src/cjson.c:720-769 | The encoding the parser writes is decoded to the same characters by a UTF-8 decoder. |
| `Unicode.Utf8Shape` | proj4/iperf-3.10.1/src/cjson.c:720-769 | ASCII is itself; any other character is a leading byte and one continuation byte for each further six bits. |
| `Unicode.Utf8Order` | proj4/iperf-3.10.1/src/cjson.c:720-769 | The byte order of the encodings is the order of the characters (section 1 of RFC 3629). |
| `Unicode.SupplementaryIsPaired` | proj4/iperf-3.10.1/src/cjson.c:682-713 | Every character beyond U+FFFF is reached by the surrogate pair of section 2.1 of RFC 2781. |
| `JsonParseBuffer.ParseBuffer.ParseNumber` | proj4/iperf-3.10.1/src/cjson.c:312-386 | At most 63 number characters are copied; the token is what strtod takes of them, and the offset moves by its length. |
| `JsonLexExact.StrtodIsLongest` | proj4/iperf-3.10.1/src/cjson.c:312-386 | How much of a text strtod takes: the longest beginning that is a sign, digits with perhaps a point among them, and perhaps an exponent with digits; nothing when there is none. |
| `JsonLexExact.NumberIsExact` | proj4/iperf-3.10.1/src/cjson.c:312-386 | In a buffer of any bytes: a number is read exactly where the longest such beginning of the next 63 bytes stands, and is that text. |
| `JsonParseBuffer.ParseBuffer.SkipWhitespace` | proj4/iperf-3.10.1/src/cjson.c:1043-1066 | The offset moves to the next byte above 32, and one back when there is none; at the end of the buffer it stays. |
| `JsonLexExact.TokenIsExact` | proj4/iperf-3.10.1/src/cjson.c:1043-1066 | In a buffer of any bytes: the next token is read exactly where it stands behind bytes up to 32, spelled out byte by byte, and the others are those behind it. |
| `JsonLexExact.LeafIsExact` | proj4/iperf-3.10.1/src/cjson.c:1317-1354 | A literal, string or number is read exactly where it stands. |
| `JsonLexExact.StopIsExact` | proj4/iperf-3.10.1/src/cjson.c:1317-1369 | Where the tokens stop before the end no token stands behind the white space, and a value or a name is refused there with the offset the source leaves. |
| `JsonParseBuffer.ParseBuffer.SkipUtf8Bom` | proj4/iperf-3.10.1/src/cjson.c:1069-1082 | The offset moves over a byte order mark of a buffer of more than four bytes. |
| `JsonParseBuffer.ParseBuffer.ParseValue` | proj4/iperf-3.10.1/src/cjson.c:1317-1369 | In a buffer of any bytes, terminated or not: item, offset and depth after success, offset and depth after failure, are those of the pure parser on the tokens ahead. |
| `JsonParseBuffer.ParseBuffer.ParseArray` | proj4/iperf-3.10.1/src/cjson.c:1446-1537 | The same for an array: the nesting limit, the end of the buffer behind the bracket and the missing bracket included. |
| `JsonParseBuffer.ParseBuffer.ElementLoop` | proj4/iperf-3.10.1/src/cjson.c:1480-1513 | The loop links the elements in their order and stops behind the last one, or fails where an element fails. |
| `JsonParseBuffer.ParseBuffer.ParseObject` | proj4/iperf-3.10.1/src/cjson.c:1602-1708 | The same for an object. |
| `JsonParseBuffer.ParseBuffer.MemberName` | proj4/iperf-3.10.1/src/cjson.c:1658-1674 | A member's name and its colon, or the offset where one of them is missing. |
| `JsonParseBuffer.ParseBuffer.MemberLoop` | proj4/iperf-3.10.1/src/cjson.c:1634-1685 | The loop links the members in their order, names and values. |
| `JsonParseBuffer.ParseBuffer.Parse` | proj4/iperf-3.10.1/src/cjson.c:1098-1177 | In a buffer of any bytes, terminated or not: the item and the end cJSON_ParseWithLengthOpts reports, with or without the demand for a terminator, or no item and the error position, none of them depending on the byte behind the buffer, which is read exactly when the parse fails with the offset behind the end. |
| `JsonOverrun.OverrunIsCut` | proj4/iperf-3.10.1/src/cjson.c:1658-1664 | parse_object starts to read a name without asking whether a byte is left. For every buffer: the byte behind it is read exactly when the buffer holds a text cut off where a name is due, behind a comma between members, with at most 1000 containers open. |
| `JsonOverrun.OverrunEndsInComma` | proj4/iperf-3.10.1/src/cjson.c:1658-1686 | So a buffer that does not end in a comma, such as every terminated text, is never read past, and no buffer by more than one byte. |
| `JsonOverrun.CutObjectOverruns` | proj4/iperf-3.10.1/src/cjson.c:1658-1664 | One buffer for which it happens. |
| `JsonParseExact.ParserIsExact` | proj4/iperf-3.10.1/src/cjson.c:1317-1708 | parse_value reads a tree exactly when the tokens ahead spell it by a grammar without depth, errors or choice, and the containers around and in it are at most 1000 deep. |
| `JsonParseExact.ValueIsRead` | proj4/iperf-3.10.1/src/cjson.c:1317-1708 | Every spelling is read as its tree when it is not too deep, and refused otherwise. |
| `JsonParseExact.ReadValue` | proj4/iperf-3.10.1/src/cjson.c:1317-1708 | What was read is spelled by the tokens and is not too deep. |
| `JsonFailure.FailureIsExact` | proj4/iperf-3.10.1/src/cjson.c:1317-1708 | parse_value fails, with this offset and depth, exactly where the tokens break off: what was read so far is the beginning of a value within the limit, and the token at the offset cannot go on; in front of a name the offset is one further, behind a bracket that ends the buffer it is that of the bracket. |
| `JsonFailure.ErrorIsExact` | proj4/iperf-3.10.1/src/cjson.c:1147-1177 | For every buffer: no item, and this error position, exactly when the buffer breaks off there, or behind its last byte, which is then reported. |
| `JsonDocument.DocumentIsRead` | proj4/iperf-3.10.1/src/cjson.c:1098-1708 | Over bytes, for every text of RFC 8259, whatever its white space, numbers and escapes, with or without a NUL behind it: the tree it denotes is returned exactly when all surrogates are paired, no number has more than 63 characters and nothing nests deeper than 1000; otherwise nothing is, unless a prefix is accepted and the text is one overlong number. A byte order mark in front changes nothing, except that a buffer of no more than four bytes is refused with it. |
| `JsonDocument.NulIsRequired` | proj4/iperf-3.10.1/src/cjson.c:1131-1139 | For every buffer: with require_null_terminated the item is returned exactly when behind it there is nothing but bytes up to 32 and the last of them is a NUL; else the error is at the first byte above 32, or at the last byte. |
| `JsonDocument.DocIsRead` | proj4/iperf-3.10.1/src/cjson.c:1317-1708 | The same for a value anywhere in a buffer, at any depth. |
| `JsonDocument.NumeralIsConverted` | proj4/iperf-3.10.1/src/cjson.c:312-386 | strtod takes every number of section 6 of RFC 8259 whole. |
| `JsonDocument.NumeralIsRead` | proj4/iperf-3.10.1/src/cjson.c:312-386 | parse_number reads a number of at most 63 characters whole, and of a longer one a part in front of another number character. |
| `JsonRoundTrip.StringRoundTrip` | proj4/iperf-3.10.1/src/cjson.c:778-1026 | parse_string undoes print_string_ptr on every NUL-free byte string, whatever stands around it. |
| `JsonRoundTrip.NumberRoundTrip` | proj4/iperf-3.10.1/src/cjson.c:312-386 | A printed number token is read as that token when no number character follows. |
| `JsonRoundTrip.RoundTrip` | proj4/iperf-3.10.1/src/cjson.c:1317-1822 | Printing, formatted or not, and parsing gives back exactly the tree when it nests at most 1000 deep, with the end at the end of the text, and no tree when it nests deeper. |
| `JsonRoundTrip.PrintIsReadable` | proj4/iperf-3.10.1/src/cjson.c:1372-1822 | No two printed tokens run together. |
| `JsonFrame.FrameRoundTrip` | proj4/iperf-3.10.1/src/iperf_api.c:2433-2496 | JSON_read takes exactly the frame of JSON_write off the wire and gets the tree back when it nests at most 1000 deep. |
| `JsonFrame.PartIsIncomplete` | proj4/iperf-3.10.1/src/iperf_api.c:2459-2496 | No proper part of a frame is taken for an item. |
| `JsonPrintBuffer.PrintBuffer.Ensure` | proj4/iperf-3.10.1/src/cjson.c:446-531 | Room for the bytes and one more, the text in front of the offset kept; without allocation it succeeds exactly when the buffer is long enough, with it it fails only when memory is refused. |
| `JsonPrintBuffer.PrintBuffer.UpdateOffset` | proj4/iperf-3.10.1/src/cjson.c:534-544 | The offset moves to the terminator of what was printed. |
| `JsonPrintBuffer.PrintBuffer.PrintNumber` | proj4/iperf-3.10.1/src/cjson.c:554-617 | The digits and a terminator, or failure for more than 25 of them or without room. |
| `JsonPrintBuffer.PrintBuffer.CountEscapes` | proj4/iperf-3.10.1/src/cjson.c:934-958 | The counted characters are exactly what escaping adds. |
| `JsonPrintBuffer.PrintBuffer.CopyEscaped` | proj4/iperf-3.10.1/src/cjson.c:974-1020 | The escaping loop writes the escaped text and nothing in front of it. |
| `JsonPrintBuffer.PrintBuffer.CopyEscape` | proj4/iperf-3.10.1/src/cjson.c:980-1020 | One turn of it, the terminator sprintf adds included. |
| `JsonPrintBuffer.PrintBuffer.WriteQuoted` | proj4/iperf-3.10.1/src/cjson.c:966-1024 | Either path, plain copy or escaping, leaves the same quoted text, the closing quote put where the count says. |
| `JsonPrintBuffer.PrintBuffer.PrintStringPtr` | proj4/iperf-3.10.1/src/cjson.c:907-1026 | The string's text with its terminator is in the buffer, or printing failed only for want of room. |
| `JsonPrintBuffer.PrintBuffer.PrintValue` | proj4/iperf-3.10.1/src/cjson.c:1372-1443 | Whatever buffers it goes through: on success the pure text of the tree, terminated, with one byte to spare, which `JsonLayout` spells out for either format; failure only for an unprintable item, refused memory or a fixed buffer shorter than text + 2; what stands in front of the offset is always a prefix of the text. |
| `JsonPrintBuffer.PrintBuffer.PrintArray` | proj4/iperf-3.10.1/src/cjson.c:1540-1599 | The same for an array. |
| `JsonPrintBuffer.PrintBuffer.Element` | proj4/iperf-3.10.1/src/cjson.c:1563-1584 | One turn of the array loop. |
| `JsonPrintBuffer.PrintBuffer.PrintObject` | proj4/iperf-3.10.1/src/cjson.c:1711-1822 | The same for an object. |
| `JsonPrintBuffer.PrintBuffer.MemberTurn` | proj4/iperf-3.10.1/src/cjson.c:1738-1798 | One turn of the object loop: indentation, name, colon, value, end of line. |
| `JsonPrintBuffer.PrintPreallocated` | proj4/iperf-3.10.1/src/cjson.c:1297-1314 | It succeeds exactly when there is a buffer, the tree can be printed and the buffer is at least two bytes longer than the text, and then the buffer holds the text; the five spare bytes of the header file are more than enough. |
| `JsonPrintBuffer.Print` | proj4/iperf-3.10.1/src/cjson.c:1192-1295 | From any initial size the printed string is the pure text, compact without format and laid out with it (`JsonLayout`); no string only for a negative size, an unprintable item or refused memory. |
| `JsonLayout.TextIsCompact` | proj4/iperf-3.10.1/src/cjson.c:1372-1822 | Without format, for every tree and depth, the text is brackets, commas, colons, words, digits and quoted strings with nothing between them, as a recursion over the tree alone. |
| `JsonLayout.TextIsFormatted` | proj4/iperf-3.10.1/src/cjson.c:1372-1822 | With format: a space behind each comma of an array; each member of an object on a line of its own behind depth + 1 tabs, a tab behind its colon, a comma behind all but the last; depth tabs in front of the closing brace, which has its own line even in an empty object. |
| `JsonLayout.PrintableIs` | proj4/iperf-3.10.1/src/cjson.c:554-592 | A tree cannot be printed exactly when one of its leaves is a number of more than 25 digits or raw text that is not there. |
| `JsonLayout.EscapeIsShortest` | proj4/iperf-3.10.1/src/cjson.c:907-1026 | Every byte of ASCII is written in the shortest way section 7 of RFC 8259 has for it, hexadecimal digits in lower case, and every other byte is copied. |
| `JsonTextLaws.TextIsPrefix` | proj4/iperf-3.10.1/src/cjson.c:1372-1822 | What is printed behind an item has no influence on the item's text. |
| `JsonTextLaws.TextNoNul` | proj4/iperf-3.10.1/src/cjson.c:1372-1822 | No text holds a NUL, so that strlen finds its end. |
| `JsonCompare.CaseInsensitiveStrcmp` | proj4/iperf-3.10.1/src/cjson.c:140-161 | Zero exactly when the strings are equal in lower case, negative or positive exactly when the first comes before or behind the second in dictionary order; 1 when one is missing. |
| `JsonCompare.LookUp` | proj4/iperf-3.10.1/src/cjson.c:1877-1907 | The first member with the name, in either mode, as both loops search it. |
| `JsonCompare.CompareItems` | proj4/iperf-3.10.1/src/cjson.c:2952-3075 | The loops compute the recursive comparison. |
| `JsonCompare.CompareMembers` | proj4/iperf-3.10.1/src/cjson.c:3036-3053 | One of the two loops over the members. |
| `JsonCompare.DuplicateItem` | proj4/iperf-3.10.1/src/cjson.c:2676-2753 | The copy, its children linked in their order, or without children. |
| `JsonCompare.CompareSymmetric` | proj4/iperf-3.10.1/src/cjson.c:2952-3075 | cJSON_Compare is symmetric on all trees. |
| `JsonCompare.CompareDuplicate` | proj4/iperf-3.10.1/src/cjson.c:2676-3075 | A tree equals its deep copy whenever no object repeats a name, and in general exactly when strings and names are there and repeated names carry equal values. |
| `JsonCompare.CompareShallow` | proj4/iperf-3.10.1/src/cjson.c:2676-3075 | A tree equals its shallow copy exactly when moreover it has no children. |
| `JsonCompare.RepeatedNameFails` | proj4/iperf-3.10.1/src/cjson.c:3017-3068 | An object with a repeated name and two values does not equal its copy. |
| `JsonCompare.ObjectsCompareAsMaps` | proj4/iperf-3.10.1/src/cjson.c:3017-3068 | Objects without repeated names compare as maps: the same names, equal values under each, in any order. |
| `JsonCompare.ArraysCompareByPlace` | proj4/iperf-3.10.1/src/cjson.c:3010-3032 | Arrays are equal exactly when they have one length and equal elements in every place. |
| `JsonCompare.LeavesCompareByKind` | proj4/iperf-3.10.1/src/cjson.c:2952-3008 | Items of different kinds differ; strings and raw texts are equal exactly when both are there and have the same bytes. |
| `JsonCompare.CloseNumbers` | proj4/iperf-3.10.1/src/cjson.c:547-551 | Numbers are equal exactly when both are zero, or they have one sign and differ by at most one part in 2^52 of the larger. |
| `JsonCompare.IntegersDiffer` | proj4/iperf-3.10.1/src/cjson.c:547-551 | So no two different integers below 2^52 are taken for equal. |
| `JsonCompare.FindIsFirst` | proj4/iperf-3.10.1/src/cjson.c:1877-1907 | The search returns exactly the first entry with the name, in either mode; when case counts it does not go past an entry without a name. |
| `JsonCompare.LowerCaseLetters` | proj4/iperf-3.10.1/src/cjson.c:140-161 | Lower case changes the letters from A to Z and no other byte. |
| `IperfTime.AddUsecs` | proj4/iperf-3.10.1/src/iperf_time.c:72-81 | The fields after the addition, each cut to its 32 bits. |
| `IperfTime.AddIsExact` | proj4/iperf-3.10.1/src/iperf_time.c:72-87 | Adding microseconds to a normalised time adds them, modulo 2^32 seconds, and stays normalised. |
| `IperfTime.AddFits` | proj4/iperf-3.10.1/src/iperf_time.c:72-87 | Nothing is lost exactly when the sum is below 2^32 seconds. |
| `IperfTime.CompareIsOrder` | proj4/iperf-3.10.1/src/iperf_time.c:102-114 | Comparing the fields compares the times. |
| `IperfTime.Diff` | proj4/iperf-3.10.1/src/iperf_time.c:124-156 | The absolute difference in microseconds, normalised, and 1 exactly when the first time is not later. |
| `TimerSpec.FiringCounts` | proj4/iperf-3.10.1/src/timer.c:176-199 | Each firing lowers the sum over the timers of max(0, now + 1 - time): tmr_run terminates. |
| `TimerSpec.RunMeaning` | proj4/iperf-3.10.1/src/timer.c:176-199 | The list stays sorted; the scheduled times of what fires never decrease and are not after now; everything due at the start fires; what is still due is periodic and fired. |
| `TimerSpec.RunFiresInOrder` | proj4/iperf-3.10.1/src/timer.c:176-199 | The same for a walk that has already begun: sorted list, non-decreasing times between the current one and now. |
| `TimerSpec.RunFiresDue` | proj4/iperf-3.10.1/src/timer.c:176-199 | Every timer that is due and not yet passed fires. |
| `TimerSpec.NextStays` | proj4/iperf-3.10.1/src/timer.c:176-199 | After a firing the walk goes on at the entry that followed, wherever the fired one goes, and ends when there was none. |
| `TimerSpec.RunLeaves` | proj4/iperf-3.10.1/src/timer.c:176-199 | What is due at the end was passed before or is periodic and fired. |
| `TimerSpec.RunAccounts` | proj4/iperf-3.10.1/src/timer.c:176-199 | A periodic timer that fired n times is scheduled n periods later; any other fires at most once and is gone exactly if it did. |
| `Timers.TimerList.FindPlace` | proj4/iperf-3.10.1/src/timer.c:77-90 | The neighbours between which a timer goes that is not the first. |
| `Timers.TimerList.Link` | proj4/iperf-3.10.1/src/timer.c:60-96 | The pointers after the insertion link the old list with the timer put in at its place. |
| `Timers.TimerList.ListAdd` | proj4/iperf-3.10.1/src/timer.c:60-96 | Stable sorted insertion into the doubly linked list, in front of the first later timer. |
| `Timers.TimerList.Unlink` | proj4/iperf-3.10.1/src/timer.c:99-108 | The pointers after the removal link the remaining nodes. |
| `Timers.TimerList.ListRemove` | proj4/iperf-3.10.1/src/timer.c:99-108 | The timer is out of the list, everything else in order, also when its time has just changed. |
| `Timers.TimerList.ListResort` | proj4/iperf-3.10.1/src/timer.c:111-118 | The timer stands where its new time belongs, behind equal ones. |
| `Timers.TimerList.Create` | proj4/iperf-3.10.1/src/timer.c:121-150 | A timer from the free list, or a new one, scheduled usecs after now and inserted in order. |
| `Timers.TimerList.Timeout` | proj4/iperf-3.10.1/src/timer.c:153-173 | max(0, earliest - now) over all active timers, in microseconds, split into seconds and microseconds; none without timers. |
| `Timers.TimerList.FireOne` | proj4/iperf-3.10.1/src/timer.c:185-198 | One turn of the walk: the list of the specification, and the walk at the node that followed. |
| `Timers.TimerList.Run` | proj4/iperf-3.10.1/src/timer.c:176-199 | The relinked lists and the firings are those of the specification run; both lists stay well formed and disjoint. |
| `Timers.TimerList.Reset` | proj4/iperf-3.10.1/src/timer.c:202-211 | The timer is scheduled its period after now and moved to its place. |
| `Timers.TimerList.Cancel` | proj4/iperf-3.10.1/src/timer.c:214-223 | The timer leaves the active list and heads the free one. |
| `Timers.TimerList.Cleanup` | proj4/iperf-3.10.1/src/timer.c:226-236 | The free list is empty, the active one untouched. |
| `Timers.TimerList.Destroy` | proj4/iperf-3.10.1/src/timer.c:239-245 | Both lists are empty. |
| `TransferProcesses.Source.FetchNext` | proj1/utils/file_helper.cpp:4-32 | The next at most 1355 bytes of the file, marked as the end exactly when they reach it; an empty file gives one empty end packet. |
| `TransferProcesses.SenderProcess.FillWin` | proj1/ncp.cpp:204-224 | The window is filled up to W_SIZE or the end of the file; the end packet gets no mark. |
| `TransferProcesses.SenderProcess.OnTimeout` | proj1/ncp.cpp:164-188 | What a timeout sends, marks and learns about the last packet. |
| `TransferProcesses.SenderProcess.OnAck` | proj1/ncp.cpp:133-149 | Acknowledged packets leave the window; the sender exits exactly when the last packet is acknowledged. |
| `TransferProcesses.SenderProcess.OnNack` | proj1/ncp.cpp:151-160 | The demanded packet of the window is sent and marked so. |
| `TransferProcesses.ReceiverProcess.Present` | proj1/rcv.cpp:189-200 | Whether some element of the window has the number. |
| `TransferProcesses.ReceiverProcess.Drain` | proj1/rcv.cpp:174-183 | For any window: how many packets the loop takes off it, and that for each of them the packet that has just arrived is written and acknowledged again; nothing when the first element is not the next packet. |
| `TransferProcesses.ReceiverProcess.DemandGaps` | proj1/rcv.cpp:209-231 | The demands are the gaps in front of each element of the window. |
| `TransferProcesses.ReceiverProcess.OnPacket` | proj1/rcv.cpp:148-233 | State and replies after a packet, with every window element an alias of the message buffer; the window never holds two, and the drain loop never runs. |
| `TransferProtocol.PayloadsArePrefix` | proj1/utils/file_helper.cpp:4-32 | The payloads of packets 1 to k are a prefix of the file, the whole of it from the last packet on. |
| `TransferProtocol.EndIsLast` | proj1/utils/file_helper.cpp:18-31 | The last packet, and no other, is marked as the end. |
| `TransferProtocol.FillKeeps` | proj1/ncp.cpp:204-224 | Filling keeps the window consecutive packets of the file, the old ones first, and ends with W_SIZE of them or at the end of the file. |
| `TransferProtocol.TimeoutKeeps` | proj1/ncp.cpp:163-188 | A timeout keeps the sender's invariant, and last_pkt is known as soon as the file is closed. |
| `TransferProtocol.AckKeeps` | proj1/ncp.cpp:133-140 | An acknowledgement removes exactly the packets up to it: a packet is in the window afterwards if and only if it was and its number is greater. The mark of the acknowledged number goes and no other. |
| `TransferProtocol.RepliesAre` | proj1/rcv.cpp:149-231 | Old packets and the next one are acknowledged with the number that is then the last in sequence; the first packet behind a gap makes the receiver demand every number of the gap, once and in order; no other packet is answered. |
| `TransferProtocol.ReceiveKeeps` | proj1/rcv.cpp:150-185 | A packet of the file keeps the written bytes equal to the payloads 1 to cum_seq. |
| `TransferProtocol.NextKeeps` | proj1/rcv.cpp:150-185 | Every event of sender, receiver or network keeps the joint invariant. |
| `TransferProtocol.TransferIsSafe` | proj1/rcv.cpp:149-185 | Over every run with loss, duplication and reordering: the written bytes are the first cum_seq packets of the file, and when the sender has exited they are the whole file. |
| `TransferProtocol.DemandsOnce` | proj1/rcv.cpp:186-231 | In every run at most one event makes the receiver demand packets. |
| `TransferProtocol.WindowIsConsecutive` | proj1/ncp.cpp:204-224 | In every state of every run the window holds consecutive packets of the file, at most W_SIZE. |
| `TransferProtocol.NothingIsDropped` | proj1/ncp.cpp:133-149 | In every state of every run each packet that was fetched and that the receiver has not got in sequence is in the window. |
| `TransferProtocol.ExitsAtTheEnd` | proj1/ncp.cpp:142-148 | In every run the sender exits on exactly those acknowledgements that reach the last packet once a timeout has fetched it. |
| `TransferProtocol.TimeoutSends` | proj1/ncp.cpp:175-187 | A timeout sends every packet that was marked before it and marks everything in the window. |
| `TransferProtocol.TimeoutSendsExactly` | proj1/ncp.cpp:164-188 | A packet is sent on a timeout if and only if it is in the window and was marked, or has just been fetched and is not the end packet. |
| `TransferProtocol.DemandedIsNotRepeated` | proj1/ncp.cpp:151-187 | A packet sent on demand is not sent again by the next timeout. |
| `TransferProtocol.SentWithinTwoTimeouts` | proj1/ncp.cpp:151-187 | A packet still in the window at the second of two successive timeouts is sent after the first, at the latest by the second. |
| `ControlProcesses.ControlSocket.WriteFrame` | proj4/iperf-3.10.1/src/iperf_api.c:2433-2455 | The length in network byte order, then the text. |
| `ControlProcesses.ServerProcess.Accept` | proj4/iperf-3.10.1/src/iperf_server_api.c:109-167 | Behind the cookie the server announces PARAM_EXCHANGE and waits for the parameters. |
| `ControlProcesses.ServerProcess.ReadHeader` | proj4/iperf-3.10.1/src/iperf_api.c:2459-2474 | The four bytes of the length are taken off the pipe. |
| `ControlProcesses.ServerProcess.ReadBody` | proj4/iperf-3.10.1/src/iperf_api.c:1946-1965 | The text is taken off the pipe; parameters are answered with CREATE_STREAMS, results with the server's own and DISPLAY_RESULTS. |
| `ControlProcesses.ServerProcess.AcceptStream` | proj4/iperf-3.10.1/src/iperf_server_api.c:645-748 | The k-th connection gets the direction the server expects there, which `StreamsArePaired` spells out; the last one announces TEST_START and TEST_RUNNING. |
| `ControlProcesses.ServerProcess.AcceptStreams` | proj4/iperf-3.10.1/src/iperf_server_api.c:555-748 | Successive data connections give exactly the numbered streams, receiving ones first, on which the pairing of the two sides rests. |
| `ControlProcesses.ServerProcess.HandleMessage` | proj4/iperf-3.10.1/src/iperf_server_api.c:171-240 | The state read and the answer to it, the unknown-message branch included. |
| `ControlProcesses.ClientProcess.CreateStreams` | proj4/iperf-3.10.1/src/iperf_client_api.c:54-123 | The client gets exactly the numbered streams of its mode, sending ones first, as many as the session has connections. |
| `ControlProcesses.ClientProcess.HandleMessage` | proj4/iperf-3.10.1/src/iperf_client_api.c:236-329 | The state read and the answer to it, the unknown-message branch included. |
| `ControlProcesses.ClientProcess.ReadHeader` | proj4/iperf-3.10.1/src/iperf_api.c:2459-2474 | The client takes the length of the server's results off the pipe. |
| `ControlProcesses.ClientProcess.ReadBody` | proj4/iperf-3.10.1/src/iperf_api.c:1946-1965 | The client takes the text off the pipe and is back in its loop, its state unchanged. |
| `ControlProcesses.ClientProcess.EndTest` | proj4/iperf-3.10.1/src/iperf_client_api.c:608-628 | The end of the test is announced once. |
| `ControlProtocol.HeaderArrives` | proj4/iperf-3.10.1/src/iperf_api.c:2433-2496 | A length that has arrived is the length of the text behind it. |
| `ControlProtocol.HeaderOrder` | proj4/iperf-3.10.1/src/iperf_api.c:2444-2446 | Headers are ordered byte by byte like the lengths: the highest byte goes first. |
| `ControlProtocol.TextsArrive` | proj4/iperf-3.10.1/src/iperf_api.c:1946-1965 | In every run the texts that are read are those that were sent: the parameters and the results of either side. |
| `ControlProtocol.NextKeeps` | proj4/iperf-3.10.1/src/iperf_server_api.c:417-799 | Every event, arrivals byte by byte included, keeps the session in its phase or takes it to the next; every byte read as a state was sent as one. |
| `ControlProtocol.StatesAreStates` | proj4/iperf-3.10.1/src/iperf_client_api.c:236-329 | Over every run neither side reaches the unknown-message branch and no byte of a frame or cookie is read as a state. |
| `ControlProtocol.MessagesAreKnown` | proj4/iperf-3.10.1/src/iperf_client_api.c:236-329 | Which state bytes each side knows, spelled out, and which of them end it; any other is a failure. |
| `ControlProtocol.StatesAdvance` | proj4/iperf-3.10.1/src/iperf_server_api.c:171-240 | Both sides go through the states in protocol order and stay within two of each other. |
| `ControlProtocol.CoursesAreRun` | proj4/iperf-3.10.1/src/iperf_client_api.c:236-329 | In every run the client goes through the states 15, 9, 10, 1, 2, 4, 13, 16 and the server through 15, 9, 10, 2, 13, 14, 16, none left out and none repeated, and a run that cannot go on has brought both to the end. |
| `ControlProtocol.NoDeadlock` | proj4/iperf-3.10.1/src/iperf_client_api.c:463-663 | Some event is possible until both sides are done. |
| `ControlProtocol.FinishedRun` | proj4/iperf-3.10.1/src/iperf_client_api.c:436-460 | A run that cannot go on has both sides in IPERF_DONE, all streams accepted and nothing on the wire. |
| `ControlProtocol.RunsEnd` | proj4/iperf-3.10.1/src/iperf_client_api.c:463-663 | Every run is finite, and all complete runs of a session have the same number of events. |
| `Streams.TestSide.AddStream` | proj4/iperf-3.10.1/src/iperf_api.c:4176-4195 | The stream goes to the end of the list and is numbered 1, 3, 4, 5 and so on. |
| `Streams.TestSide.CreateStreams` | proj4/iperf-3.10.1/src/iperf_client_api.c:54-123 | n streams of one direction are added. |
| `Streams.TestSide.CreateClientStreams` | proj4/iperf-3.10.1/src/iperf_client_api.c:260-270 | The client creates sending streams in a normal test, receiving ones in a reverse one, and first the sending ones when the test is bidirectional (`StreamsArePaired`). |
| `Streams.StreamsArePaired` | proj4/iperf-3.10.1/src/iperf_server_api.c:555-654 | The client has n streams, or 2n in a bidirectional test, numbered 1, 3, 4 and so on; its k-th stream sends if and only if the test is normal, or bidirectional and k < n; the k-th stream of the server has the same number and the opposite direction. |
| `Streams.TestSide.GetResult` | proj4/iperf-3.10.1/src/iperf_api.c:2353-2396 | A report changes exactly the first stream with its number, or is refused; without times in it the time is zero. |
| `Streams.WithoutTimes` | proj4/iperf-3.10.1/src/iperf_api.c:2370-2394 | A report without times leaves a time of zero. |
| `Streams.TestSide.GetResults` | proj4/iperf-3.10.1/src/iperf_api.c:2335-2401 | All reports are stored, and the call fails exactly when one has no stream. |
| `Streams.ResultsArePaired` | proj4/iperf-3.10.1/src/iperf_api.c:2229-2396 | Every stream is told exactly what the paired stream of the peer counted, jitter, retransmissions and duration included, and nothing else of it changes. |
| `Streams.ExchangeIsPaired` | proj4/iperf-3.10.1/src/iperf_api.c:1946-1965 | Over the whole exchange, the server storing the client's results before it reports its own, both sides end up with what the other had counted before. |
| `UdpLoss.LossBounds` | proj4/iperf-3.10.1/src/iperf_udp.c:142-167 | For every arrival sequence, duplicates included: highest - received <= cnt_error <= highest - distinct. |
| `UdpLoss.LossCount` | proj4/iperf-3.10.1/src/iperf_udp.c:142-167 | For every arrival sequence: cnt_error is highest - received + excess. |
| `UdpLoss.ExcessIsMaximum` | proj4/iperf-3.10.1/src/iperf_udp.c:142-167 | The excess is the maximum, over all moments k so far, of k minus the highest number among the first k packets. |
| `UdpLoss.LossIsExactIff` | proj4/iperf-3.10.1/src/iperf_udp.c:142-167 | For every arrival sequence, duplicates included: cnt_error is the number of packets missing below the highest exactly when at some moment nothing was missing and no later packet is a repeat. |
| `UdpLoss.LossIsExact` | proj4/iperf-3.10.1/src/iperf_udp.c:142-167 | Without duplicates cnt_error is the number of packets missing below the highest. |
| `UdpLoss.OrderDoesNotMatter` | proj4/iperf-3.10.1/src/iperf_udp.c:142-167 | Without duplicates it does not depend on the order of arrival. |
| `UdpLoss.OrderMattersByExcess` | proj4/iperf-3.10.1/src/iperf_udp.c:142-167 | Two orders of the same packets, duplicates included, are counted alike exactly when their excess is the same. |
| `UdpLoss.RepeatHidesLoss` | proj4/iperf-3.10.1/src/iperf_udp.c:142-167 | A repeat that arrives while a packet is missing takes one off a count that was exact. |
| `UdpLoss.DuplicatesMislead` | proj4/iperf-3.10.1/src/iperf_udp.c:142-167 | With duplicates it does: whenever nothing is missing, a repeat and a packet that leaves a gap are counted exactly in one order and one too low in the other. |
| `UdpLoss.OutOfOrderIsLate` | proj4/iperf-3.10.1/src/iperf_udp.c:151-157 | For every arrival sequence the out-of-order count is the number of packets that are not above the highest before them. |
| `StreamCounters.StreamState.TcpSend` | proj4/iperf-3.10.1/src/iperf_tcp.c:83-108 | Bytes, interval bytes and the pending part of the block after a write. |
| `StreamCounters.StreamState.TcpReceive` | proj4/iperf-3.10.1/src/iperf_tcp.c:55-76 | Received bytes count only while the test runs. |
| `StreamCounters.StreamState.UdpSend` | proj4/iperf-3.10.1/src/iperf_udp.c:212-263 | Bytes and packet count after a write. |
| `StreamCounters.StreamState.UdpReceive` | proj4/iperf-3.10.1/src/iperf_udp.c:68-200 | Bytes, loss counters, transit time and jitter after a read; the first packet after the start or a reset is compared with itself. What the jitter is over a run says `JitterIsDiscounted`. |
| `StreamCounters.StreamState.StatsCallback` | proj4/iperf-3.10.1/src/iperf_api.c:3030-3109 | The interval that is recorded, with its times, retransmissions and jitter, and the counters it restarts. |
| `StreamCounters.StreamState.ResetStats` | proj4/iperf-3.10.1/src/iperf_api.c:2994-3021 | What the end of the omitted period resets and what it keeps as omitted. |
| `StreamCounters.BytesAreConserved` | proj4/iperf-3.10.1/src/iperf_api.c:2994-3109 | Over every interleaving of sends, receives, callbacks and resets the bytes since the reset are the recorded intervals plus the open one. |
| `StreamCounters.CountsTelescope` | proj4/iperf-3.10.1/src/iperf_api.c:3081-3098 | The interval packet, error and out-of-order counts add up to the last snapshot. |
| `StreamCounters.RetransmissionsAreConserved` | proj4/iperf-3.10.1/src/iperf_api.c:3013-3061 | Over every interleaving the retransmissions of a stream are those of the intervals since the reset, and what the kernel has counted since then. |
| `StreamCounters.IntervalsAbut` | proj4/iperf-3.10.1/src/iperf_api.c:3048-3057 | Over every interleaving each interval begins where the one before it ended. |
| `StreamCounters.IntervalsAreSnapshots` | proj4/iperf-3.10.1/src/iperf_api.c:3030-3109 | Over every interleaving there is one interval for each callback, with the counters, bytes, jitter, time and retransmissions of the stream at that moment; the first starts at the start time. |
| `StreamCounters.OmittedIsWhatWasCounted` | proj4/iperf-3.10.1/src/iperf_api.c:2994-3021 | Over every interleaving the omitted packets, errors, out-of-order packets and bytes, and the start time, are those at the last reset. |
| `StreamCounters.JitterIsBounded` | proj4/iperf-3.10.1/src/iperf_udp.c:173-195 | Over every interleaving of arrivals, callbacks and resets the jitter lies between 0 and the spread of the transit times. |
| `StreamCounters.JitterIsDiscounted` | proj4/iperf-3.10.1/src/iperf_udp.c:173-197 | Over every interleaving the jitter of a UDP receiver is the sum, over the packets since the last reset, of a sixteenth of the difference between their transit time and the one before, times 15/16 for each later packet. |
| `StreamCounters.BytesAreThoseOfTheEvents` | proj4/iperf-3.10.1/src/iperf_tcp.c:55-108 | Over every interleaving the bytes sent are all that was written, and the bytes received all that was read since the last reset while the test ran. |
| `StreamCounters.BlocksAreWhole` | proj4/iperf-3.10.1/src/iperf_tcp.c:87-101 | Bytes sent plus the pending size are a whole number of blocks. |
| `StreamCounters.PacketsAreNumbered` | proj4/iperf-3.10.1/src/iperf_udp.c:222-240 | In any run of a sender the packet count is the number of sends, so that packets are numbered from 1 on. |
| `StreamCounters.ReceiverCounts` | proj4/iperf-3.10.1/src/iperf_udp.c:85-167 | In any run the loss counters are those of the packets that arrived while the test ran. |
| `RateWindow.RateLimit.WindowIsRotation` | proj4/iperf-3.10.1/src/iperf_api.c:1673-1676 | The cyclic array read from behind the index is the sliding window of the last N counts. |
| `RateWindow.RateLimit.AddUp` | proj4/iperf-3.10.1/src/iperf_api.c:1683-1686 | The sum over the array is the sum of the last N counts. |
| `RateWindow.RateLimit.CheckTotalRate` | proj4/iperf-3.10.1/src/iperf_api.c:1662-1699 | From the N-th call on the limit is exceeded exactly when the bits of the last N intervals reach limit + 1 times their duration; nothing is recorded when done or unlimited. |
| `RateWindow.RateExceeds` | proj4/iperf-3.10.1/src/iperf_api.c:1688-1698 | The rate, cut to an integer, is above the limit exactly then. |
| `Pacing.BelowRate` | proj4/iperf-3.10.1/src/iperf_api.c:1649-1651 | The integer rate is below the limit exactly when fewer bits were sent than the limit allows. |
| `Pacing.PacedTest.CheckThrottle` | proj4/iperf-3.10.1/src/iperf_api.c:1640-1659 | The light is green exactly below the rate; the stream starts its next round within it. |
| `Pacing.PacedTest.SendTimer` | proj4/iperf-3.10.1/src/iperf_api.c:1809-1819 | The timer keeps every stream in bounds. |
| `Pacing.PacedTest.SendRound` | proj4/iperf-3.10.1/src/iperf_api.c:1719-1745 | One pass over the streams adds at most one block to each; after a hard error every stream is still within a round of blocks of the rate. |
| `Pacing.PacedTest.Send` | proj4/iperf-3.10.1/src/iperf_api.c:1701-1760 | iperf_send keeps every stream in bounds, checked after every send or after a burst, and within a round of blocks of the rate when it ends in a hard error. |
| `Pacing.WithinOneRound` | proj4/iperf-3.10.1/src/iperf_api.c:1640-1760 | In bounds means: bytes_sent * 8 is at most rate * elapsed plus one block, or burst blocks in burst mode. |
| `CacheProcesses.Prune` | proj2/rt_srv.cpp:136-139 | The unguarded loop stops at a number that is kept, with exactly the entries from the acknowledged number on. |
| `CacheProcesses.ServerProcess.OnApp` | proj2/rt_srv.cpp:146-157 | The data is cached under the next number. |
| `CacheProcesses.ServerProcess.OnMessage` | proj2/rt_srv.cpp:97-141 | State and reply after a calibration request, a demand or an acknowledgement. |
| `Cache.ServerAnswers` | proj2/rt_srv.cpp:97-141 | A demand is answered exactly when the packet is held, with its data, and only its first time is kept; an acknowledgement beyond cum_seq removes exactly the smaller numbers. |
| `CacheProcesses.ClientProcess.OnReply` | proj2/rt_rcv.cpp:96-136 | State and acknowledgement after a packet: blocked, calibrating, sequential or cached. |
| `Cache.ReplyIsStored` | proj2/rt_rcv.cpp:97-136 | The blocked number ends the client, the first reply calibrates it; from then on every packet is stored under its number and its arrival under the stamp, and nothing else changes. |
| `Cache.ClientMovesOn` | proj2/rt_rcv.cpp:112-132 | The awaited packet moves the client on to the first number it does not hold, at most 81 further, and the one in front of it is acknowledged; no other packet moves it or is acknowledged. |
| `CacheProcesses.ClientProcess.OnTimeout` | proj2/rt_rcv.cpp:145-157 | A demand for each of the next 80 numbers that is missing. |
| `Cache.DemandsAreTheMissing` | proj2/rt_rcv.cpp:145-157 | Demanded are exactly the numbers from cum_seq to cum_seq + 79 that are not held. |
| `CacheProcesses.ClientProcess.Expire` | proj2/rt_rcv.cpp:168-174 | Exactly the expired stamps go, and the highest of their numbers is kept. |
| `Cache.TopIsGreatest` | proj2/rt_rcv.cpp:168-174 | That number is the greatest of the expired ones, or 0 without any. |
| `CacheProcesses.ClientProcess.HandOver` | proj2/rt_rcv.cpp:175-180 | The packets up to a number go to the application in order. |
| `Cache.InOrderIs` | proj2/rt_rcv.cpp:175-180 | In front of each packet handed over stand exactly the held packets with smaller numbers. |
| `CacheProcesses.ClientProcess.Deliver` | proj2/rt_rcv.cpp:168-182 | Timed delivery as a whole, the jump of cum_seq included. |
| `Cache.DeliveryIsInOrder` | proj2/rt_rcv.cpp:168-182 | Everything held up to the greatest expired number is appended to what was delivered, in the order of the numbers; the rest is kept; cum_seq goes behind that number when it has been passed. |
| `CacheProtocol.AckIsHeld` | proj2/rt_srv.cpp:134-141 | Server and client together: an acknowledgement that passes the cum_seq test names a packet in both maps. |
| `CacheProtocol.NextKeeps` | proj2/rt_srv.cpp:88-157 | Every event keeps the cross-process invariant. |
| `CacheProtocol.CacheIsExact` | proj2/rt_srv.cpp:110-157 | Over every run the cache holds exactly max(1, cum_seq) to cache_seq - 1, and every pruning acknowledgement names a number in both maps. |
| `CacheProtocol.DeliveredIsGenuine` | proj2/rt_rcv.cpp:112-182 | What the client holds and delivers is what the application sent. |

## Left out

- Sockets, `select`, options, files, signals and authentication: foreign calls; what they deliver is an event or a parameter.
- `sprintf`, `strtod`, locales, NaN and infinity: foreign; numbers are tokens.
- The `next` and `prev` pointers of parsed nodes and the identity of items (`a == b` in `cJSON_Compare`): trees are values; reference and constant flags are not kept.
- JsonCompare.DuplicateItem: allocation always succeeds, and as trees are values it does not show that the copy shares no memory with the original.
- JsonCompare.CompareItems: two items at one address are equal without being looked at; trees as values have no addresses.
- JsonPrintBuffer.PrintBuffer.PrintNumber: the digits are given; how the program chooses between 15 and 17 of them, and prints null for NaN and infinity, is not modelled.
- JsonPrintBuffer.PrintBuffer.Ensure: `size_t` does not wrap; the `SIZE_MAX` branches are kept.
- JsonPrintBuffer.Print: the last step, which copies the text into a buffer of its own size, is not modelled.
- `cJSON_Minify` and the detach, replace and insert functions: their string scan and their tail pointer do not keep a clean invariant.
- Timers.TimerList.Create: negative delays, which the program turns into huge ones, are not modelled.
- Timers.TimerList.FireOne: the new time of a periodic timer fits the 32-bit seconds.
- Timers.TimerList.Run: periods are positive and new times fit; callbacks that cancel or reset timers while the list is walked are excluded.
- TransferProcesses.SenderProcess.OnNack: the demanded packet must be in the window, because the program does not check.
- TransferProcesses.ReceiverProcess.OnPacket: opening and closing the output file, the queue of further senders and statistics are not part of it.
- The sender's packets, which are never changed once they are filled in, are values and not heap objects.
- ControlProtocol.NextKeeps: one client; the second connection that gets ACCESS_DENIED, SERVER_TERMINATE and SERVER_ERROR are only branches of the client that no run reaches.
- ControlProcesses.ServerProcess.Accept: a second connection, which gets ACCESS_DENIED, is not modelled.
- ControlProcesses.ServerProcess.HandleMessage: a closed connection and read errors are not modelled.
- ControlProcesses.ClientProcess.CreateStreams: a connection that cannot be opened is not modelled.
- ControlProcesses.ClientProcess.HandleMessage: SERVER_TERMINATE, ACCESS_DENIED and SERVER_ERROR share one failure branch, without the numbers the last one carries.
- ControlProcesses.ClientProcess.EndTest: that the time, bytes or blocks are used up is a free choice.
- ControlProcesses.ServerProcess.ReadBody: the content of parameters and results is not interpreted here; `Streams` takes up the results.
- Pacing.PacedTest.CheckThrottle: times are real numbers and the average is exact before it is cut to an integer; a check needs some time to have passed.
- StreamCounters.StreamState.UdpReceive: the packet is read already; times are real numbers.
- StreamCounters.StreamState.StatsCallback: window sizes and round-trip figures from the kernel are not modelled; a stream without a count of retransmissions has 0.
- StreamCounters.StreamState.ResetStats: the totals of the whole test are not part of it.
- RateWindow.RateLimit.CheckTotalRate: the rate is computed in real numbers, and counts do not wrap.
- UdpLoss.LossBounds: counters are unbounded; 32-bit wrap-around of `packet_count` is not modelled.
- CacheProcesses.ServerProcess.OnMessage: the reply to a second client, which is blocked, is not modelled.
- CacheProtocol.CacheIsExact: arrival stamps are arbitrary, so nothing is said about when packets are delivered, and over a run nothing about their order; one delivery is in order.
- `diskfile_send`, unit parsing, report printing, argument parsing and the socket tutorial: no law holds for the first, and the others are tables or I/O.
