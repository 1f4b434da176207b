# Servus: digests, URIs, 128-bit values and discovery

Servus is a small library around service discovery. This project models the four parts of it
that are pure logic, and proves what their users rely on.

* **MD5** (`Bits`, `Md5Rounds`, `Md5Sines`, `Md5Codec`, `Md5Digest`, `Md5Context`, `Numerals`,
  `HexText`). `Md5Digest` is the one-shot digest of RFC 1321, sections 3.1 to 3.5.
  `Md5Context.MD5` is the incremental object with its 64-byte buffer, its two-word bit counter and
  its unrolled block step. The main result is that for every message and every cutting of it into
  chunks the object yields the one-shot digest.
* **URIs** (`UriText`, `StringOrder`, `UriQuery`, `UriParse`, `UriPrint`, `UriAcceptance`,
  `UriAppendixB`, `UriObject`). The table-driven parser, the authority splitter, the query loop,
  the printer, and the object that keeps a query map beside a query string. The main results are
  exact: when printing and parsing give the data back, which data a parse can produce, which texts
  are accepted, when the parser agrees with the regular expression of Appendix B of RFC 3986, what
  a query string says, and when the map is the parse of the string.
* **128-bit values** (`Uint128`, `Uint128Text`, `Uint128Digest`). Carries and borrows on two
  64-bit words are arithmetic modulo 2^128 over every sequence of operators, and every printed
  form parses back.
* **In-process discovery** (`DiscoveryModel`, `DiscoveryPositions`, `DiscoveryNames`,
  `DiscoveryState`, `TestDriver`). `DiscoveryModel` is a state machine of many objects over one
  directory, `TestDriver` the classes; every method is a step of the state machine, and every
  sequence of calls is a run. The main results are about what a listener hears, and about what is
  found after a run.

## How things are modelled

* Unsigned words are natural numbers below 2^8, 2^32 or 2^64. The C operators are written out:
  `&`, `|`, `^` bit by bit, shifts by powers of two, sums and differences modulo the width.
* `MD5::update` casts its length to 32 bits before counting (servus/md5/md5.cc:83 and :86). The
  model keeps the cast, so a chunk may have any length. The padded text is then the one of
  RFC 1321 exactly when the multiples of 2^32 that the casts drop add up to a multiple of 2^29
  of them; they add up to 0 when every chunk is shorter than 2^32 bytes.
* `memset(buffer, 0, sizeof(*buffer))` (servus/md5/md5.cc:206) clears one byte although its
  comment speaks of all sensitive information; the model clears one byte, and
  `Md5Context.MD5.Finalize` states that the others keep the last block.
* Assertions are proof obligations where they hold. Where they can fail, in the assignment of a
  text to a 128-bit value (servus/uint128_t.cpp:50 and :67), the model's result is `None`.
* `strtol` and `strtoull` follow the C locale with 64-bit results: white space, sign, digits,
  saturation. A port is the number read, cut to 16 bits, so port 65536 is read as 0 and -1 as
  65535; the header only promises an exception "if the port is not a number". `std::map` is
  iterated in ascending key order, `std::set` of pointers in an unknown order.
* Objects of the directory live for the whole run and are known by identity, not by name. The
  mutex makes each operation one step. Which object a shared name is discovered as, and the order
  of notifications within one browse, depend on pointer values, so a browse is a relation.
  `gethostname` is a parameter.
* In `TestDriver` a ghost log on each listener records who called it about which peer; the program
  passes it only a name.

## Results that differ from the documentation

* Print and parse do not always give the data back: an empty userinfo before a host that holds an
  '@' is not printed. `UriPrint.EmptyUserinfoLost` gives a text, `UriPrint.RoundTrip` the exact
  condition, for all data.
* The parser departs from the regular expression of Appendix B of RFC 3986 in two ways. It reads
  other parts for "file" with an authority, for an authority without a scheme, and for a scheme
  followed by ':' alone, which is documented (servus/uri.h:57-58): `UriAppendixB.FileHostInPath`
  gives a text. It rejects texts whose scheme is not valid, or whose authority has an empty host or
  a port that is not a number, among them addresses in brackets, which RFC 3986 allows:
  `UriAppendixB.ColonFirstRejected` and `UriAppendixB.BracketsRejected` give texts, and
  `UriAcceptance.AcceptedExactly` the accepted ones. `UriAppendixB.AcceptedAlikeExactly` says for
  every text, by its groups, when it is accepted and read alike.
* `addQuery` clears the fragment (servus/uri.cpp:404); its comment says that the fragment is
  rebuilt, but it is the query that is rebuilt.
* The query map and the query string drift apart when a key is empty or holds '=' or '&', or a
  value holds '&'. `UriObject.CacheDrifts` gives an addition, `UriObject.AdditionKeepsStep` the exact
  condition on one addition, `UriObject.CacheInStepExactly` that on every run.
* servus/listener.h:45-51 promises a listener the instance that was removed. `withdraw` clears
  the name before the next browse reports it, so that the name is always empty:
  `DiscoveryModel.RemovedNameLostInRuns`, and `DiscoveryModel.RemovalTold` for a run.
* An object that announces itself again under another name is found under it, but listeners are
  not told: `DiscoveryNames.RenameUnheard`, `DiscoveryNames.RenameMissed`; the exact condition is in
  `DiscoveryNames.NameHeldExactly`.
* `beginBrowsing` and `endBrowsing` clear what was seen without telling anyone, so a peer may be
  reported as added twice in a row. `DiscoveryModel.AddedTwice` gives a run,
  `DiscoveryModel.AlternatesExactly` the exact condition for every run.

## Model

| member | source | states |
|---|---|---|
| Bits.RotateIsCircular | servus/md5/md5.cc:499-501 | The shift-and-or expression is the circular shift of RFC 1321: the top n bits become the bottom n bits and nothing is lost |
| Bits.CircularBits | servus/md5/md5.cc:499-501 | Under the circular shift every bit moves up by n places, and from the top around to the bottom |
| Bits.CircularInverse | servus/md5/md5.cc:499-501 | Rotating left and right by the same amount gives every word back, in both orders |
| Md5Rounds.AuxiliaryBits | servus/md5/md5.cc:508-522 | In every bit position F chooses y or z by x, G chooses x or y by z, H is the parity of the three, I turns y over unless z is set and x is not |
| Md5Rounds.AuxBits | servus/md5/md5.cc:508-552 | By round and in every bit position: choose by b, choose by d, parity, and c turned over unless d is set and b is not |
| Md5Rounds.StepEquation | servus/md5/md5.cc:530-552 | One step keeps b, c and d, and what it adds to b is the circular shift of a + aux + X[k] + T[i] |
| Md5Rounds.FF | servus/md5/md5.cc:530-534 | For every word: the round operation b + ((a + F + x + ac) <<< s) of RFC 1321, with the true circular shift |
| Md5Rounds.GG | servus/md5/md5.cc:536-540 | The same with G |
| Md5Rounds.HH | servus/md5/md5.cc:542-546 | The same with H |
| Md5Rounds.II | servus/md5/md5.cc:548-552 | The same with I |
| Md5Rounds.Round1 | servus/md5/md5.cc:359-375 | The 16 unrolled statements, with their rotating register names, are steps 0 to 15 of one uniform table-driven step |
| Md5Rounds.Round2 | servus/md5/md5.cc:377-393 | The same for steps 16 to 31 |
| Md5Rounds.Round3 | servus/md5/md5.cc:395-411 | The same for steps 32 to 47 |
| Md5Rounds.Round4 | servus/md5/md5.cc:413-429 | The same for steps 48 to 63 |
| Md5Rounds.Unrolled | servus/md5/md5.cc:353-429 | The 64 unrolled statements are the 64 table-driven steps, for every block and every register content |
| Md5Rounds.TableWords | servus/md5/md5.cc:360-429 | The message words used are i, 5i+1, 3i+5 and 7i modulo 16 in the four rounds |
| Md5Rounds.TableShifts | servus/md5/md5.cc:330-345 | The rotation amounts of the four rounds are 7 12 17 22, 5 9 14 20, 4 11 16 23 and 6 10 15 21, four times each |
| Md5Sines.TableSines | servus/md5/md5.cc:360-429 | Every additive constant is the first 32 bits of the absolute value of the sine of its number, the sine being computed from its series and the addition theorems in 96 binary places |
| Md5Rounds.UnstepInverse | servus/md5/md5.cc:530-552 | Every single step has an explicit inverse, on both sides |
| Md5Rounds.StepsBijective | servus/md5/md5.cc:359-429 | For every block, the 64 steps before the feed-forward additions are a bijection on the registers: the 64 inverse steps in reverse order undo them, on both sides |
| Md5Codec.Encode | servus/md5/md5.cc:445-455 | Byte 4i+j of the output is byte j of word i, counted from the low-order end, and bytes past len are untouched |
| Md5Codec.Decode | servus/md5/md5.cc:462-469 | Word i of the output is the little-endian value of bytes 4i to 4i+3, and words past len/4 are untouched |
| Md5Codec.DecodeEncode | servus/md5/md5.cc:445-469 | Decoding an encoding gives the words back, for any number of words |
| Md5Codec.EncodeDecode | servus/md5/md5.cc:445-469 | Encoding a decoding gives the bytes back, for any length that is a multiple of four |
| Md5Codec.MaskedByte | servus/md5/md5.cc:450-453 | Shifting and masking extracts the byte that division and remainder give |
| Md5Codec.JoinedWord | servus/md5/md5.cc:467-468 | Shifting the bytes and joining them with "or" gives their little-endian value |
| Md5Codec.ByteDigits | servus/md5/md5.cc:450-453 | The four bytes of a word are its digits in base 256, low-order first |
| Md5Digest.InitialBytes | servus/md5/md5.cc:317-321 | The initial registers are the bytes 01 23 ... ef fe ... 10 of section 3.3 of RFC 1321, low-order byte first |
| Md5Digest.FeedForward | servus/md5/md5.cc:431-434 | For every block: the differences that the block step makes to the four registers, undone by the 64 inverse steps, are those registers |
| Md5Digest.PaddedLayout | servus/md5/md5.cc:180-200 | The padded text is the message, a one bit, zero bits, and the bit count modulo 2^64 with its low-order byte first |
| Md5Digest.PadCount | servus/md5/md5.cc:194-197 | The padding has 1 to 64 bytes and brings the length to 56 modulo 64 |
| Md5Digest.PadCountLeast | servus/md5/md5.cc:194-197 | No shorter padding does |
| Md5Digest.AbsorbConcat | servus/md5/md5.cc:97-100 | Folding the block step over a text may be interrupted at any block boundary |
| Md5Digest.LengthFieldInjective | servus/md5/md5.cc:192-200 | Two bit counts have the same length field exactly when they agree modulo 2^64 |
| Md5Context.CountAdvances | servus/md5/md5.cc:82-86 | The hand-written carry keeps the two words equal to the bit count modulo 2^64, for every count and every length below 2^32 |
| Md5Context.BufferIndex | servus/md5/md5.cc:79-80 | The low word alone yields the byte count modulo 64, also after it has wrapped |
| Md5Context.PaddingPrefix | servus/md5/md5.cc:180-197 | padLen is at most 64, so the table is never read past its end, and the bytes used are the padding of section 3.1 |
| Md5Context.MD5.constructor | servus/md5/md5.cc:310-322 | A new object has absorbed nothing: initial registers, zero count, invariant established |
| Md5Context.MD5.OfString | servus/md5/md5.cc:213-218 | The bytes before the first NUL are digested with their length counted modulo 2^32, so that texts shorter than 2^32 bytes get their digest |
| Md5Context.CString | servus/md5/md5.cc:216 | The longest prefix without a zero byte |
| Md5Context.MD5.Transform | servus/md5/md5.cc:351-439 | The registers become the block step of RFC 1321 of the old registers and the block |
| Md5Context.MD5.Memcpy | servus/md5/md5.cc:476-482 | Exactly the addressed bytes are replaced by the input |
| Md5Context.MD5.Count | servus/md5/md5.cc:82-86 | The counter words advance by 8 times the length, modulo 2^64 |
| Md5Context.MD5.Update | servus/md5/md5.cc:69-110 | Keeps the invariant: registers are the fold over the complete blocks of everything passed so far, the buffer starts with the remaining tail, the counter is 8 times the counted bytes modulo 2^64; on a finalized object registers, counter, buffer and digest are unchanged |
| Md5Context.MD5.TransformAll | servus/md5/md5.cc:92-103 | Filling the buffer and then bypassing it absorbs every complete block of the total text and leaves less than a block |
| Md5Context.MD5.Finalize | servus/md5/md5.cc:176-210 | The digest is that of the whole message with the counted length; one block step when the buffer index is below 56, else two; the registers and the counter are those after the padded text, and the buffer keeps its last block but for the one cleared byte; a second call changes nothing |
| Md5Context.MD5.AppendPadding | servus/md5/md5.cc:191-200 | What is absorbed is the padded text: no byte is left unprocessed, and the buffer holds its last block |
| Md5Context.MD5.RawDigest | servus/md5/md5.cc:250-261 | The sixteen bytes of the digest, or nothing before Finalize |
| Md5Context.MD5.RawDigestWords | servus/md5/md5.cc:263-273 | The two words are the big-endian values of the two halves of the digest |
| Md5Context.MD5.HexDigest | servus/md5/md5.cc:276-291 | Two zero-padded hexadecimal digits for each digest byte in order, or the empty text before Finalize |
| Md5Context.HalvesText | servus/md5/md5.cc:263-291 | For every digest the 32 zero-padded digits of the two words are the text of hex_digest |
| HexText.FixedValue | servus/md5/md5.cc:285-286 | The padded text of a number consists of lower-case digits that denote the number |
| HexText.BytesTextAt | servus/md5/md5.cc:285-286 | Characters 2i and 2i+1 of the text are the digits of the upper and the lower half of byte i |
| Md5Context.CountedAndLost | servus/md5/md5.cc:83-86 | The bytes counted and 2^32 times the lengths the casts lose add up to the message; nothing is lost when every chunk is shorter than 2^32 bytes |
| Md5Context.PaddedExactly | servus/md5/md5.cc:83-86 | The text that is digested is the padded message of RFC 1321 exactly when the lost lengths vanish modulo 2^64 bits |
| Md5Context.WideChunkMispadded | servus/md5/md5.cc:83-86 | A message on which it is not: 2^32 zero bytes in one chunk are counted as none |
| Md5Context.DigestOfChunks | servus/md5/md5.cc:56-210 | Construct, update with each chunk, finalize: for every cutting of a message into chunks, empty ones included, the one-shot digest of the message |
| Uint128.NumberDigits | servus/uint128_t.h:293-296 | The digits of the 128-bit number are those of the high word, then those of the low word |
| Uint128.Less | servus/uint128_t.h:178-185 | The order of the 128-bit numbers |
| Uint128.Greater | servus/uint128_t.h:190-197 | The reverse order of the 128-bit numbers |
| Uint128.LessEqual | servus/uint128_t.h:203-210 | Less or equal as 128-bit numbers |
| Uint128.GreaterEqual | servus/uint128_t.h:216-223 | Greater or equal as 128-bit numbers |
| Uint128.Uint128.Assign | servus/uint128_t.h:117-122 | The value of the right-hand side, which may be the object itself |
| Uint128.Uint128.Increment | servus/uint128_t.h:226-233 | The number plus one modulo 2^128 |
| Uint128.Uint128.Decrement | servus/uint128_t.h:236-242 | The number minus one modulo 2^128 |
| Uint128.Uint128.AddAssign | servus/uint128_t.h:245-254 | The sum modulo 2^128 of the two old numbers, also when an object is added to itself |
| Uint128.AddLow | servus/uint128_t.h:318-325 | A new value, the sum with a 64-bit number modulo 2^128; the operand is unchanged |
| Uint128.Add | servus/uint128_t.h:328-334 | A new value, the sum modulo 2^128; both operands are unchanged |
| Uint128.SubtractLow | servus/uint128_t.h:337-344 | A new value, the difference with a 64-bit number modulo 2^128; the operand is unchanged |
| Uint128.SumOfWords | servus/uint128_t.h:247-252 | Adding word by word with the carry detected by comparison is addition modulo 2^128 |
| Uint128.DifferenceOfWords | servus/uint128_t.h:339-343 | Subtracting with the borrow detected by comparison is subtraction modulo 2^128 |
| Uint128.RunIsModular | servus/uint128_t.h:225-254 | Every sequence of operators commutes with reduction modulo 2^128 |
| Uint128.Perform | servus/uint128_t.h:225-344 | After every sequence of operators on an object, a += a included, its number is the start value plus the integer changes modulo 2^128 |
| Uint128.WrapDetected | servus/uint128_t.h:178-185 | a + b < a under the class's own comparison exactly when the 128-bit sum wraps |
| Uint128Text.AssignText | servus/uint128_t.cpp:39-73 | The words written as the cursor moves are the parsed value, and it fails exactly where an assertion of the program does |
| Uint128Text.ParseExactly | servus/uint128_t.cpp:39-73 | A text is accepted with a value if and only if it is empty, or begins with a hexadecimal numeral that ends at the end, at ':' or at the escaped colon, and the two words are those of the numerals there |
| Uint128Text.NumeralScan | servus/uint128_t.cpp:49 | strtoull reads white space, sign, prefix and digits as the value modulo 2^64 for a minus sign, saturated, up to the first character that is no digit |
| Uint128Text.ScanNumeral | servus/uint128_t.cpp:49-50 | When it reads anything, it has read such a numeral |
| Uint128Text.ScanSpelling | servus/uint128_t.cpp:49-70 | A hexadecimal spelling of a 64-bit number, in either case, with leading zeros or a prefix, is read as that number up to the separator |
| Uint128Text.ParsePair | servus/uint128_t.cpp:57-71 | Any two spellings joined by ':' or by the escaped colon parse to the two words |
| Uint128Text.ParseSingle | servus/uint128_t.cpp:52-56 | A single spelling parses to the low word with a zero high word |
| Uint128Text.PrintParse | servus/uint128_t.h:275-306 | Every 128-bit value survives getString, the stream form and the form with the escaped colon |
| Uint128Text.FitsBuffer | servus/uint128_t.h:275-281 | The printed text and its terminator always fit the 34 bytes: both halves are there, joined by ':' |
| Uint128Text.StreamForm | servus/uint128_t.h:299-306 | The stream form has a colon if and only if the high word is not zero |
| Uint128Text.NegativeRead | servus/uint128_t.cpp:49 | "-1" is read as the largest word |
| Numerals.PrintedDigits | servus/uint128_t.h:279 | A printed number has lower-case digits, and begins with '0' only if it is 0 |
| Numerals.PrintedValue | servus/uint128_t.h:279 | A printed number denotes the number |
| Numerals.ValueConcat | servus/uint128_t.cpp:49 | Digits are read in positional notation, the first one counting most |
| Numerals.DigitsExactly | servus/uint128_t.cpp:49 | The hexadecimal digits, in both cases, have their values, and no other character is one |
| Numerals.SpacesExactly | servus/uint128_t.cpp:49 | The six white-space characters of the C locale, and no other |
| Uint128Digest.MakeUint128 | servus/uint128_t.cpp:75-81 | The 32 padded hexadecimal digits of the 128-bit number are the text of the digest of the C string with its length counted modulo 2^32, which is the MD5 digest for texts shorter than 2^32 bytes |
| StringOrder.LessExactly | servus/uri.cpp:408 | Keys are ordered by their first difference, a proper prefix coming first |
| StringOrder.SortedUnique | servus/uri.cpp:408 | The iteration order of a map is determined by its key set alone |
| StringOrder.CollectKeys | servus/servus.cpp:67-73 | Walking a map and appending its keys lists each key once in ascending order |
| UriText.NumberRead | servus/uri.cpp:134-138 | strtol reads a non-empty text to its end exactly when it is white space, an optional sign and at least one digit |
| UriText.SignedRead | servus/uri.cpp:136 | A decimal with a sign in front is read as the number or its negation, saturated at the ends of a 64-bit long |
| UriQuery.ParseQueryMap | servus/uri.cpp:146-175 | The loop ends, with the text shrinking strictly, and the map is the last-wins fold over the pieces between '&' that drops empty pieces and pieces with an empty key and splits each on its first '=' |
| UriQuery.QueryMapExactly | servus/uri.cpp:146-175 | A key has a value in the map of a query string if and only if the key is non-empty and free of '=' and the last piece that is the key or begins with key and '=' is the key alone, the value being empty, or key, '=' and the value |
| UriQuery.Pieces | servus/uri.cpp:154-165 | There is at least one piece and no piece holds the separator |
| UriQuery.PiecesJoin | servus/uri.cpp:154-165 | Cutting a joined list at its separators gives the list back |
| UriQuery.JoinPieces | servus/uri.cpp:154-165 | Joining the pieces of a string with the separator gives the string back |
| UriQuery.RebuildQuery | servus/uri.cpp:407-414 | The loop's test for an empty string separates correctly: the result is the entries in ascending key order joined by '&' |
| UriQuery.QueryMapGood | servus/uri.cpp:146-175 | No parse produces a key that is empty or holds '=' or '&', or a value that holds '&' |
| UriQuery.RebuildParse | servus/uri.cpp:146-175 | Parsing the rebuilt string gives the map back if and only if all its keys are non-empty and free of '=' and '&' and its values free of '&' |
| UriQuery.ParseRebuildParse | servus/uri.cpp:146-175 | Parse, rebuild, parse is parse, for every query string |
| UriQuery.AddInAnyOrder | servus/uri.cpp:403-414 | The string rebuilt from the map after adding the same distinct keys does not depend on the order |
| UriParse.ParseUriPart | servus/uri.cpp:85-123 | The table-driven step yields the part and the rest for each of the five parts; its assertions on the leading '?' and '#' and on the skip length hold |
| UriParse.SchemeSplitAt | servus/uri.cpp:96-113 | A scheme is found at a "://" that follows text without '/', '?' and '#' |
| UriParse.SchemeSplitSome | servus/uri.cpp:96-113 | It is found nowhere else |
| UriParse.ParseUri | servus/uri.cpp:205-254 | The state machine ends, by part and remaining length, and computes the part-by-part reference for every input, rejections included |
| UriParse.SchemeRead | servus/uri.cpp:177-217 | The scheme of an accepted text is that part of the text with its capital letters, and nothing else, moved up to lower case |
| UriParse.SchemeExactly | servus/uri.cpp:215-222 | A scheme is valid if and only if it is a letter of either case followed by letters, digits, '+', '-' and '.' |
| UriParse.PartConserves | servus/uri.cpp:85-123 | Each step splits the text into consumed and kept parts; nothing is lost but the delimiters |
| UriParse.ParseConserves | servus/uri.cpp:205-254 | For every accepted text the parts with the delimiters that are present are the text; only the case of the scheme is lost |
| UriPrint.AuthorityExactly | servus/uri.cpp:125-144 | The splitter accepts exactly the texts userinfo '@' host ':' port, with '@' and userinfo or ':' and port optional, a non-empty host and a port that is a whole number, with exactly those parts and the port modulo 2^16 |
| UriPrint.PortKept | servus/uri.cpp:131-139 | Every decimal port is accepted, however large, as its saturated value modulo 2^16, and kept exactly when it is below 2^16 |
| UriPrint.AuthorityParses | servus/uri.cpp:125-144 | A printed authority is read back as its userinfo, host and port |
| UriPrint.AuthorityMisread | servus/uri.cpp:125-130 | A host with an '@' and no userinfo before it is never read back |
| UriPrint.ReadableExactly | servus/uri.cpp:310-320 | The exact condition on userinfo, host and port under which the compound authority parses back to them |
| UriPrint.AuthorityTextForm | servus/uri.cpp:310-320 | The compound authority has '@' exactly for a userinfo and ':' exactly for a port that is not 0 |
| UriPrint.TailParses | servus/uri.cpp:239-251 | A path with an optional query and fragment is read as just these, and the map is the parse of the query |
| UriAcceptance.AcceptedExactly | servus/uri.cpp:125-254 | A text is accepted if and only if it has no scheme, or a valid one followed, unless it is "file", by an empty authority or one of the accepted form |
| UriPrint.ParseShaped | servus/uri.cpp:205-254 | Every accepted text produces well-formed data |
| UriPrint.ShapedIsImage | servus/uri.cpp:205-254 | Data is well-formed if and only if some text parses to it |
| UriPrint.AssembledParses | servus/uri.h:147-167 | Well-formed data written with every '@' it needs parses back to itself in all fields |
| UriPrint.RoundTrip | servus/uri.h:147-167 | For all data, also data made with the setters: parsing the printed text returns the same scheme, userinfo, host, port, path, query, fragment and map if and only if the data is well-formed and a host that holds an '@' has a userinfo |
| UriPrint.PrintForm | servus/uri.h:147-167 | The printed text is the parts in order with a delimiter exactly for each part that is there: no '@', ':', '?' or '#' for an empty userinfo, port 0, an empty query or fragment |
| UriPrint.DocumentedExample | servus/uri.h:40-51 | The documented example has the parts the documentation gives, and prints back |
| UriPrint.ParsePrintParse | servus/uri.h:147-167 | For the result of every accepted text: print and parse give it back if and only if a host that holds an '@' has a userinfo |
| UriPrint.EmptyUserinfoLost | servus/uri.h:155-156 | A text that is accepted and does not survive printing and parsing |
| UriAppendixB.GroupsMatch | servus/uri.h:36-37 | The regular expression of Appendix B of RFC 3986 matches every text, and its groups recompose to it |
| UriAppendixB.MatchesExactly | servus/uri.h:36-37 | The match is unique: the groups are a function of the text |
| UriAppendixB.ParserAgrees | servus/uri.cpp:205-254 | For every accepted text with a scheme other than "file" the parts are the groups of Appendix B, undefined and empty identified |
| UriAppendixB.ParserAgreesExactly | servus/uri.cpp:205-254 | For every text that is accepted, the parts are the groups of Appendix B if and only if the groups are without scheme and authority, or have both, the authority being empty when the scheme is "file" |
| UriAppendixB.AcceptedAlikeExactly | servus/uri.cpp:125-254 | For every text: it is accepted with the groups of Appendix B as its parts if and only if it has neither scheme group nor authority group nor a "://" that would end a scheme, or a valid scheme and an authority group that is empty after "file" and of the accepted form after any other |
| UriAppendixB.ColonFirstRejected | servus/uri.cpp:213-222 | A text that meets the condition on the groups of accepted texts and is rejected |
| UriAppendixB.BracketsRejected | servus/uri.cpp:131-139 | A text with an address in brackets, matched by the expression, is rejected: the first colon in the brackets is taken for the one before a port |
| UriAppendixB.FileHostInPath | servus/uri.cpp:223-230 | A text on which they differ: in "file://h/p" the host h is read as the start of the path |
| UriObject.Uri.constructor | servus/uri.cpp:273-276 | The object holds the given data |
| UriObject.Uri.FromText | servus/uri.cpp:185-198 | An object with the parsed data, or the error exactly when parsing fails |
| UriObject.Uri.PutQuery | servus/uri.cpp:372-377 | Query and map are replaced together, nothing else changes |
| UriObject.Uri.AddPair | servus/uri.cpp:399-415 | The map gains the pair, the query is rebuilt from it, the fragment is cleared, nothing else changes |
| UriObject.Uri.GetAuthority | servus/uri.cpp:310-320 | The compound authority: it parses back to userinfo, host and port if and only if the host is not empty, holds no ':', and holds an '@' only behind a userinfo without one |
| UriObject.Uri.Perform | servus/uri.cpp:347-415 | Any sequence of setters and additions leaves the data that the operations one after the other give |
| UriObject.PartsAfter | servus/uri.cpp:347-415 | After every run scheme, userinfo, host, port, path and fragment each hold what was last written to them, an addition writing the empty fragment |
| UriObject.QueryAfter | servus/uri.cpp:347-382 | The query and the map stay while neither is set nor added to |
| UriObject.RunDerived | servus/uri.cpp:372-415 | Over every run one of string and map was computed from the other |
| UriObject.CacheExact | servus/uri.cpp:372-415 | After every run from a parsed text, the map is the parse of the string if and only if its keys are non-empty and free of '=' and '&' and its values free of '&' |
| UriObject.AdditionKeepsStep | servus/uri.cpp:399-415 | One addition to an object whose map is the parse of its string keeps it so if and only if the key is non-empty and free of '=' and '&' and the value free of '&' |
| UriObject.CacheDrifts | servus/uri.cpp:399-415 | A text and an addition after which the map is not the parse of the string |
| UriObject.CacheInStepExactly | servus/uri.cpp:372-415 | For every run from a parsed text, the map is the parse of the string if and only if the last pair added for each key since the last setQuery has such a key and such a value |
| UriObject.CacheNeverDrifts | servus/uri.cpp:372-415 | With such keys and values added the map is always the parse of the string |
| UriObject.QueryKeepsShape | servus/uri.cpp:372-415 | Setting a query keeps well-formed data well-formed if and only if it is free of '#'; adding a pair, if and only if key and value are moreover as above |
| UriObject.AdditionsCommute | servus/uri.cpp:399-415 | Adding the same pairs with distinct keys in any order leaves the same object, in the query string and in every other part |
| DiscoveryModel.InitialConsistent | servus/test/servus.h:138-143 | Newly constructed objects satisfy the invariant |
| DiscoveryModel.NextConsistent | servus/test/servus.h:54-134 | Every operation keeps the invariant: an object is in the directory exactly when it is announced, and unannounced objects have neither name nor port |
| DiscoveryModel.DirectoryIsAnnounced | servus/test/servus.h:54-79 | In every reachable state an object is in the directory exactly when its announced flag is set |
| DiscoveryModel.BrowseKinds | servus/test/servus.h:95-126 | One browse tells about a peer once when it entered or left the directory, with the right kind, and else not at all |
| DiscoveryModel.HeardAlternates | servus/test/servus.h:80-134 | Over every run of many objects without a clearing of the browser, a registered listener hears for each peer strictly alternating events, and the peer is in view exactly when the last one was "added" |
| DiscoveryModel.SessionAlternates | servus/test/servus.h:80-134 | Between two clearings the events begin with "added"; after each browse the browser's view is the directory and a peer is in it exactly when its last event was "added" |
| DiscoveryModel.AlternatesExactly | servus/test/servus.h:80-134 | Over every run of many objects in which the listener stays registered, with any number of clearings: what it hears about a peer alternates if and only if the browser is never cleared while it has the peer in view with a later browse that finds the peer in the directory |
| DiscoveryModel.FirstHeard | servus/test/servus.h:91-134 | From a view without the peer, something is heard about it if and only if some browse finds it in the directory, and then "added" first |
| DiscoveryModel.ClearedExactly | servus/test/servus.h:80-134 | For an undisturbed run, a clearing and another undisturbed run: what is heard alternates if and only if the peer was not in view at the clearing or nothing is heard after it, that is, no later browse finds the peer |
| DiscoveryPositions.AlternatesMeans | servus/listener.h:38-51 | Events alternate exactly when each differs from the one before it |
| DiscoveryPositions.FindsAgainMeans | servus/test/servus.h:80-134 | The condition by positions: some step clears the browser while the peer is in view, and some later browse of it finds the peer in the directory |
| DiscoveryPositions.UndisturbedMeans | servus/test/servus.h:80-134 | No step of a run clears the browser or removes the listener |
| DiscoveryPositions.RegisteredMeans | servus/servus.cpp:162-166 | No step of a run removes the listener |
| DiscoveryModel.AddedTwice | servus/test/servus.h:130-134 | A run of five steps from newly constructed objects in which a listener hears "added" twice in a row about a peer that never left |
| DiscoveryModel.ClearedReportsAgain | servus/test/servus.h:130-134 | An endBrowsing followed by a browse reports each peer in the directory as added, once |
| DiscoveryModel.RemovedNameLost | servus/test/servus.h:69-77 | A note of a removal carries the empty name, one of an addition the announced name |
| DiscoveryModel.RemovedNameLostInRuns | servus/listener.h:45-51 | In no run from newly constructed objects does a removal ever name its instance |
| DiscoveryModel.RemovalTold | servus/test/servus.h:69-77 | A run of four steps from newly constructed objects in which a removal is reported, with the empty name, of an object that was reported as added with its name |
| DiscoveryModel.FoundAgrees | servus/servus.cpp:129-154 | After a browse, for every announced object with a unique name, get and containsKey agree with the object's own data plus the default host entry, whatever was found before |
| DiscoveryModel.FoundNames | servus/test/servus.h:101-110 | The names found are exactly those of the announced objects |
| DiscoveryState.RunHolds | servus/servus.cpp:61-81 | After every run an object's value for a key, announcement, name, port, browsing flag and listeners are as the last operation on each says; get of a key never set is empty |
| DiscoveryState.LastSetIsFound | servus/servus.cpp:61-154 | From newly constructed objects, after every run and a browse: under a name that one announced object bears, each key is found with the value that was last set for it, or else as the default host entry or not at all |
| DiscoveryState.UnknownNotFound | servus/servus.cpp:129-154 | Under a name that no announced object bears nothing is found |
| DiscoveryNames.NameHeldExactly | servus/test/servus.h:91-128 | In a session that ends with a browse, the names a listener was last told are held for exactly the peers in the directory, and the one for a peer is its present name if and only if the peer's last announcement since it entered the view, if any, gave that name |
| DiscoveryNames.NamesCovered | servus/test/servus.h:101-126 | If so for every peer in the directory, the names a listener holds are exactly the names found |
| DiscoveryNames.RenameUnheard | servus/test/servus.h:54-67 | For every peer in view and in the directory that announces itself again, the next browse finds its new name and tells nothing about it |
| DiscoveryNames.RenameMissed | servus/test/servus.h:54-67 | A run of four steps from newly constructed objects in which only a name that no listener was told is found |
| DiscoveryModel.DiscoverEffect | servus/servus.cpp:95-106 | A discovery finds exactly the names of the announced objects and leaves the browsing state and the directory as they were; without an open session it reports every announced object as added and then forgets it |
| TestDriver.Servus.constructor | servus/test/servus.h:42-45 | A new object is unannounced, not browsing and has seen nothing |
| TestDriver.Servus.PutValue | servus/servus.cpp:61-65 | A step of the state machine: one pair of this object's data |
| TestDriver.Servus.Announce | servus/test/servus.h:54-67 | A step of the state machine: name, port, flag and directory change together |
| TestDriver.Servus.Withdraw | servus/test/servus.h:69-77 | A step of the state machine: the object leaves the directory and loses name and port |
| TestDriver.Servus.BeginBrowsing | servus/test/servus.h:80-89 | A step of the state machine: a new session has seen nothing, an open one is untouched and reported as pending |
| TestDriver.Servus.EndBrowsing | servus/test/servus.h:130-134 | A step of the state machine: the session ends and what was seen is forgotten |
| TestDriver.Servus.AddListener | servus/servus.cpp:156-160 | A step of the state machine: the listener is registered once, a null one ignored |
| TestDriver.Servus.RemoveListener | servus/servus.cpp:162-166 | A step of the state machine: the listener is gone, a null one ignored |
| TestDriver.Servus.CopyValues | servus/test/servus.h:105-109 | The default host entry overridden by the peer's own pairs |
| TestDriver.Servus.Collect | servus/test/servus.h:101-110 | Every name in the directory is found with the values of an object of that name, and no other name |
| TestDriver.Servus.Notify | servus/test/servus.h:117-123 | Every registered listener is called exactly once |
| TestDriver.Servus.ReportPeer | servus/test/servus.h:114-125 | A peer not in view enters it and is reported as added, one in view leaves it and is reported as removed |
| TestDriver.Servus.ReportDifference | servus/test/servus.h:95-126 | The view becomes the directory, and every listener is told once about each peer that entered or left and about no other |
| TestDriver.Servus.Browse | servus/test/servus.h:91-128 | A step of the state machine, with every listener's log extended by exactly its notes |
| TestDriver.Servus.GetInstances | servus/servus.cpp:108-115 | The names found, each once, in ascending order |
| TestDriver.Servus.GetKeysOf | servus/servus.cpp:117-127 | The keys found on an instance, each once, in ascending order; none for an unknown instance |
| TestDriver.Servus.GetKeys | servus/servus.cpp:67-73 | The object's own keys, each once, in ascending order |
| TestDriver.Servus.Discover | servus/servus.cpp:95-106 | The sorted distinct names of exactly the announced objects, and the browsing flag as before; every listener is told once about each object that entered or left the view of an open session, or about each announced object without one; the view ends as the directory or empty |
| TestDriver.PerformOne | servus/test/servus.h:54-134 | Any operation on any object is one step of the state machine, and every listener's log grows by what it is told |
| TestDriver.Perform | servus/test/servus.h:54-134 | Any sequence of operations of many objects is a run of the state machine, keeps its invariant, and extends the logs by what the run tells |
| TestDriver.LogIsHeard | servus/listener.h:38-51 | A listener's log, restricted to a browser and a peer, is what the state machine says it hears |
| TestDriver.LogAlternates | servus/listener.h:38-51 | In the log of a listener that stays registered, the events from a browser about a peer alternate from "added" on while the browser's view is not cleared, and after a browse the last is "added" exactly for the peers in the directory |
| TestDriver.LogAlternatesExactly | servus/listener.h:38-51 | Over every run in which the listener stays registered, the events about a peer in its log alternate if and only if the browser is never cleared with the peer in view and finds it again |

## Left out

- Md5Context.DigestOfChunks: equal digests of different padded texts are not excluded, so that the digest is proved to be the one of RFC 1321 in one direction only; the exact condition is stated for the padded text.
- Md5Sines.TableSines: the sine is the one computed in 96 binary places; that its rounding error does not reach the first 32 bits is not proved.
- Md5Codec.Encode: array lengths are unbounded, while the program's loop counters are 32-bit; it only calls them with 8, 16 and 64.
- Md5Context.MD5.Transform: the clearing of the local words at the end is not observable and not modelled.
- Md5Context.MD5.Update: lengths near the limit of size_t, where the index arithmetic of the loop would wrap, and the messages on the error stream.
- The MD5 constructors and updates from files and streams (servus/md5/md5.cc:117-165 and :222-246): input and output around the chunked update.
- UriParse.ParseUri: which exception is thrown; every one reaches the caller as the same parse error.
- UriObject.Uri.Perform: ports set directly are natural numbers; the program's type limits them to 16 bits.
- Comparison of URIs (servus/uri.cpp:41-46): it ignores the scheme; all results here compare every field.
- TestDriver.Servus.Browse: the time-out is ignored by the program; listeners that call back into the directory are not modelled.
- TestDriver.Servus.Discover: only the two results that this driver's beginBrowsing can give; the other drivers can fail.
- The destructor of a directory object, and so the reuse of an identity; threads beyond the atomicity of each operation.
- make_UUID, getShortString, the bitwise operators, and construction and assignment from integers on 128-bit values: a random device, a lossy text, and single expressions.
- The Avahi and DNS-SD drivers, the Qt models, the serializable interface and the result texts: other libraries, user interface, or single branches.
