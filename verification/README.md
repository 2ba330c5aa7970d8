# A verified model of the newcoin node

This project models the self-contained parts of an early Ripple ("newcoin") node and proves what they are
for. `dafny verify dfyconfig.toml` checks all of it.

| files | what they model |
|---|---|
| `Wrappers`, `Sequences`, `CText`, `Numerals` | an optional value, regrouped concatenations, C strings and `strcmp` order, numbers written in base 256 and base 58 |
| `JsonValue`, `JsonLexer`, `JsonParser`, `JsonReader` | the value tree, the lexer, the parser as a function of the tokens, and the `Reader` class with its cursor, node stack and error list |
| `JsonText`, `JsonWriter` | the texts of `FastWriter` and `StyledWriter` as functions of the tree, and the two writer classes |
| `JsonTokens`, `JsonLayout`, `JsonRoundTrip`, `JsonBuilds` | what both texts read as, parsing after printing, what the reader builds and printing it again |
| `JsonUnicode`, `JsonGrammar` | strings and escapes; every text RFC 8259 calls JSON, what it means, and that the reader agrees |
| `JsonForm` | what the writers' texts look like |
| `PoolSpec`, `PoolInvariant`, `PoolLog`, `PoolPacing`, `PoolRuns`, `PoolSteps`, `ConnectionPool` | the peer connection pool and scan scheduler as a state machine, its history of scan attempts, what every step and every run keeps, what the steps come to, and the pool class whose methods are those steps |
| `BigNum`, `Base58`, `Address` | the byte and compact forms of a big number, Base58 and Base58Check, addresses and seeds |
| `Rfc1751`, `Rfc1751Keys`, `Rfc1751Parity`, `Rfc1751Texts` | bit fields, keys as words, what the check bits are and catch, texts and codes |
| `SerializerSpec`, `Serializer` | the binary form and the two classes that write and read it |
| `Framing`, `PeerLink`, `Peer`, `Connection` | message frames, one direction of a connection as a state machine, the `Peer` class, and two peers with the bytes between them, whose every event is a step in both directions |
| `BatchSpec`, `BatchAllocator` | the batch allocator as a state machine, and the class with its free list threaded through released blocks |

Code that updates things in place is a class or a loop here too. Each such method is proved to compute a
function of the old state (or to be a step of a relation), and the properties are proved of that function or
of all runs of those steps.

Where the code does not do what its comments or names suggest, the model follows the code:

- The JSON reader hands integers to the double path one decimal digit before the type overflows
  (`json/json_reader.cpp:597-606`), so a tree comes back exactly when its integers are above -2147483640 and
  below 4294967290 (`JsonRoundTrip.ReadBackExact`).
- A comma before `}` is refused exactly unless the last name is empty (`json/json_reader.cpp:492`,
  `JsonGrammar.TrailingCommaInObject`), and any token will do between two elements of an array
  (`json/json_reader.cpp:566`, `JsonGrammar.AnySeparator`).
- `encodeLengthLength` has its third comparison reversed (`shared/Serializer.cpp:470`), so with assertions on,
  payloads of 12481 to 918743 bytes cannot be appended (`SerializerSpec.AssertionRefuses`,
  `SerializerSpec.WriteOk`).
- The upper bound 570 of the search for short words is exclusive (`shared/rfc1751.cpp:398-400`), so the word at
  index 570 is never found. A key's own text is accepted exactly when none of its twelve groups is 570
  (`Rfc1751Keys.KeyRoundTrip`; `Rfc1751Keys.LostKey` is such a key), and a seed with that word, given to
  `setSeedGeneric`, is taken for a pass phrase (`Address.GenericWords`).
- `standard` (`shared/rfc1751.cpp:318-343`) changes copies of the letters, so words are matched as written
  (`Rfc1751Keys.Eng2KeyIff`).
- A scan interval that no longer fits an int when doubled turns negative
  (`src/ConnectionPool/ConnectionPool.cpp:679`), so the attempt after it starts again at the minimal interval
  (`PoolRuns.RunDoublesWaits`); until then the delays double (`PoolRuns.RunBacksOff`).
- A batch is called full when its use equals the number of objects in a page, which blocks of several objects
  may step over. Blocks stay inside their batch exactly when the page is a multiple of the block
  (`BatchSpec.InsideIff`).

Times, node keys and addresses of the pool are unbounded integers and strings; the doubling of the scan
interval wraps at 32 bits as in the code.

## Model

| member | source | states |
|---|---|---|
| `JsonRoundTrip.FastRoundTrip` | json/json_writer.cpp:197-263 | for every real-free tree, parsing the FastWriter text (YAML on or off) succeeds and yields the norm of the tree if and only if its integers are in the exact range and a strict reader allows its root |
| `JsonRoundTrip.StyledParsesAsFast` | json/json_writer.cpp:276-480 | for every real-free tree, the styled text parses to the same verdict, value and errors at the same tokens as the fast text (a refused root is reported at the whole document) |
| `JsonLayout.SameTokens` | json/json_writer.cpp:276-480 | line breaks, indentation and one-line arrays change no token: both documents lex to the tokens of the tree |
| `JsonLayout.LexStyled` | json/json_writer.cpp:290-402 | writeValue, in any document and at any indentation, adds text that reads as the tokens of the value |
| `JsonForm.StyledDocumentIs` | json/json_writer.cpp:276-480 | the styled document sets every item on a line of its own, indented by three blanks for every open bracket |
| `JsonForm.StyledIsBlock` | json/json_writer.cpp:290-480 | a value is set so wherever it stands, its first line going on where the document is |
| `JsonForm.OneLineIff` | json/json_writer.cpp:404-432 | an array is set on one line if and only if its items are leaves and the line stays under 74 columns |
| `JsonForm.FastIsTokens` | json/json_writer.cpp:207-263 | the fast text is the tokens of the value and nothing else, but for a blank after each colon with the YAML option |
| `JsonForm.EscapeForm` | json/json_writer.cpp:111-173 | exactly what must be escaped is, by two characters where possible and otherwise by `\u` with upper-case digits |
| `JsonTokens.LexFast` | json/json_writer.cpp:207-263 | the text of a value in front of any delimiter lexes to the tokens of the value |
| `JsonTokens.LexQuoted` | json/json_writer.cpp:111-173 | a quoted string, whatever it holds, is one string token |
| `JsonRoundTrip.ReadTokens` | json/json_reader.cpp:194-242 | in front of the tokens of a value, readValue consumes exactly these and delivers what the value reads back as |
| `JsonRoundTrip.ReadBackExact` | json/json_reader.cpp:581-616 | a tree reads back as its norm if and only if all its integers are in the exact range |
| `JsonRoundTrip.ParseTokens` | json/json_reader.cpp:151-191 | parsing any document with the tokens of a tree gives its norm, nothing unread and no error, if and only if the tree is exact and its root allowed |
| `JsonBuilds.ParseBuilds` | json/json_reader.cpp:151-242 | whatever the document, a value that parses is well formed and its integers are in the exact range |
| `JsonBuilds.ParsePrintParse` | json/json_reader.cpp:151-242 | whatever the document, a value that parses and has no doubles parses again from what either writer prints, to its norm |
| `JsonGrammar.JsonParses` | json/json_reader.cpp:151-242 | every JSON text of RFC 8259, in any spelling and with any white space, parses to what it means, unless sscanf refuses one of its numbers or a strict reader its root |
| `JsonGrammar.ReadJson` | json/json_reader.cpp:194-242 | in front of the tokens of a JSON text readValue reads exactly that text, with members in any order and repeated ones overwritten |
| `JsonGrammar.LexJson` | json/json_reader.cpp:273-359 | a JSON text is cut into its tokens, with blank, tab, line feed and carriage return between them |
| `JsonGrammar.DecodeNumeral` | json/json_reader.cpp:581-643 | every number of section 6 is an integer in the exact range or what sscanf reads |
| `JsonGrammar.TrailingCommaInArray` | json/json_reader.cpp:538-578 | a comma before the closing bracket is refused |
| `JsonGrammar.AnySeparator` | json/json_reader.cpp:556-575 | any token is taken for the comma between two elements |
| `JsonGrammar.TrailingCommaInObject` | json/json_reader.cpp:479-535 | a comma before the closing brace is refused if and only if the last name is not empty |
| `JsonGrammar.LexComments` | json/json_reader.cpp:377-449 | both forms of a comment are one token |
| `JsonGrammar.CommentBeforeValue` | json/json_reader.cpp:245-260 | a comment before a value is skipped where comments are allowed and refused where not |
| `JsonRoundTrip.DecodeEscaped` | json/json_reader.cpp:657-701 | decoding undoes the writer's escaping for every string, control characters included |
| `JsonRoundTrip.DecodeQuoted` | json/json_writer.cpp:111-173 | a quoted C string decodes to what precedes its first NUL |
| `JsonRoundTrip.DecodeDecimal` | json/json_reader.cpp:593-608 | the digit loop rebuilds a printed number, and gives up exactly when its leading digits reach the threshold |
| `JsonUnicode.EscapedTextDecodes` | json/json_reader.cpp:657-756 | for every string of section 7 of RFC 8259, plain characters, the eight two-character escapes and `\u` escapes of either case mixed in any order, decodeString yields exactly its meaning in UTF-8 |
| `JsonUnicode.OtherEscapesRefused` | json/json_reader.cpp:669-697 | a backslash before any other letter is refused, whatever came before it |
| `JsonUnicode.Utf8Correct` | json/json_reader.cpp:69-103 | codePointToUTF8 gives the one byte sequence section 4 of RFC 3629 allows for the scalar value |
| `JsonParser.DecodePoint` | json/json_reader.cpp:703-731 | no input makes the code point exceed 0x10FFFF, and it consumes a part of the text that is there |
| `JsonParser.ReadValue` | json/json_reader.cpp:194-242 | reading never gives tokens back, success consumes some, and success means that no error was added |
| `JsonReader.Reader.Parse` | json/json_reader.cpp:151-191 | on every document: terminates, keeps the cursor in the document, delivers what the parsing function says, leaves one node, and returns true exactly when the error list is empty |
| `JsonReader.Reader.ReadValue` | json/json_reader.cpp:194-242 | the cursor only moves forward, the node stack is as it was but for its top, errors are only appended, all as the parsing function says |
| `JsonReader.Reader.ReadArray` | json/json_reader.cpp:538-578 | the loop over elements computes the parsing function, any separator being taken for a comma |
| `JsonReader.Reader.ReadObject` | json/json_reader.cpp:479-535 | the loop over members computes the parsing function |
| `JsonReader.Reader.ReadToken` | json/json_reader.cpp:273-345 | the cursor program reads the first token of the lexer's sequence for the rest of the document |
| `JsonReader.Reader.DecodeString` | json/json_reader.cpp:657-701 | the loop computes the decoding function that EscapedTextDecodes and OtherEscapesRefused are about, or its error |
| `JsonReader.Reader.DecodeNumber` | json/json_reader.cpp:581-616 | the loops compute the decoding function |
| `JsonReader.Reader.RecoverFromError` | json/json_reader.cpp:773-787 | skips past the first token of the wanted kind or to the end, and drops the errors met on the way |
| `JsonValue.PutMemberIncreasing` | json/json_value.cpp:1021-1060 | inserting through resolveReference keeps names strictly increasing, is what a later lookup finds, and leaves the value of every other name |
| `JsonWriter.UIntToString` | json/json_writer.cpp:30-40 | fills the buffer backwards with the decimal digits, never past its beginning |
| `JsonWriter.ValueToString` | json/json_writer.cpp:42-64 | the decimal text of every 32-bit integer, in a buffer that is large enough |
| `JsonWriter.ValueToQuotedString` | json/json_writer.cpp:111-173 | both the fast path and the loop give the escaped text |
| `JsonWriter.FastWriter.Write` | json/json_writer.cpp:197-263 | appends the fast text of the tree |
| `JsonWriter.StyledWriter.Write` | json/json_writer.cpp:276-288 | produces the styled text and leaves the indentation empty |
| `JsonWriter.StyledWriter.WriteValue` | json/json_writer.cpp:290-348 | writes the value into the document or the child list, and restores indentation and mode |
| `JsonWriter.StyledWriter.WriteArrayValue` | json/json_writer.cpp:351-402 | one line or many as isMultineArray decides; the assertion on the number of child values holds |
| `PoolRuns.RunKeepsMaps` | src/ConnectionPool/ConnectionPool.cpp:292-459 | in every run, after every step: map keys are their peers' own addresses and node keys, both maps are injective, our own key is never connected, and a detached peer is in neither map and not scanned |
| `PoolRuns.RunStaysAwake` | src/ConnectionPool/ConnectionPool.cpp:602-708 | in every run, after every step: a scan is in flight, or the timer is armed for the earliest row, or no row is scheduled |
| `PoolRuns.RunNeverFreesRows` | src/ConnectionPool/ConnectionPool.cpp:140-180 | in every run the set of available rows never grows |
| `PoolRuns.RunSpacesScans` | src/ConnectionPool/ConnectionPool.cpp:665-692 | in every run every attempt puts its row off by at least the minimal interval; the next attempt, with no connectTo between, comes at least that much later, and with no verification either, no earlier than the attempt's own delay |
| `PoolRuns.RunBacksOff` | src/ConnectionPool/ConnectionPool.cpp:665-692 | in every run the k-th attempt in a row, counted in the log since the row was last verified or asked for, has a delay of at least the minimal interval times 2^(k-1), unless an earlier attempt of the streak had a delay that does not fit an int when doubled |
| `PoolRuns.RunDoublesWaits` | src/ConnectionPool/ConnectionPool.cpp:672-679 | in every run, of two attempts with nothing of the row between them the second waits exactly twice as long while that fits an int, and the minimal interval when it does not |
| `PoolPacing.StreakWaits` | src/ConnectionPool/ConnectionPool.cpp:665-692 | what a spaced log says by itself of the delay after k attempts in a row |
| `PoolLog.RefreshLogs` | src/ConnectionPool/ConnectionPool.cpp:665-700 | scanRefresh logs exactly the attempts it makes, with the delays it stores, and the scan in flight is the last of them |
| `PoolLog.StepLogs` | src/ConnectionPool/ConnectionPool.cpp:72-708 | every entry a step adds has its cause: a streak ends only with a verification by someone else or a connectTo |
| `PoolRuns.DetachSchedules` | src/ConnectionPool/ConnectionPool.cpp:464-565 | detaching an identified connection leaves its row scheduled |
| `PoolRuns.HelloSchedules` | src/Peer/Peer.cpp:593-642 | a refused hello, whose row may just have been unscheduled, leaves the row scheduled, unless the connection known under that key had no address and is now identified by this one |
| `PoolSteps.RunHello` | src/ConnectionPool/ConnectionPool.cpp:367-422 | in every run a hello connects its peer under its key if and only if the key is not our own and not connected; an accepted inbound peer has its guessed address in the table, an accepted scan its row off the schedule; a refused peer is detaching and no connection changes |
| `PoolSteps.HelloOutcome` | src/Peer/Peer.cpp:593-642 | the same of any step from a state with the invariant |
| `PoolSteps.AcceptOutcome` | src/Peer/Peer.cpp:235-265 | an accepted connection is a new inbound peer without address or key |
| `PoolSteps.RefreshLeavesNoneDue` | src/ConnectionPool/ConnectionPool.cpp:619-708 | without a scan in flight no row is due when scanRefresh returns |
| `PoolSteps.RefreshConnects` | src/ConnectionPool/ConnectionPool.cpp:619-708 | scanRefresh connects to at most one row, the last it put off and one not connected yet; the others were connected already |
| `PoolSteps.RefreshInOrder` | src/ConnectionPool/ConnectionPool.cpp:640-660 | no row is put off while one due earlier is not |
| `PoolSteps.SavesOutcome` | src/ConnectionPool/ConnectionPool.cpp:99-134 | savePeer leaves the row in the table; a new one has been scanned on return unless another scan is in flight |
| `PoolSteps.ConnectToOutcome` | src/ConnectionPool/ConnectionPool.cpp:274-287 | connectTo has the row scanned on return unless another scan is in flight |
| `PoolSteps.LowWaterConnects` | src/ConnectionPool/ConnectionPool.cpp:183-222 | policyLowWater connects to every available row at or under low water and to none above |
| `PoolSteps.ClosesSchedulesAt` | src/ConnectionPool/ConnectionPool.cpp:479-507 | closing the connection of an unscheduled row schedules it after the minimal interval exactly |
| `PoolRuns.ClosesDoes` | src/ConnectionPool/ConnectionPool.cpp:512-565 | peerClosed makes no row available, schedules the row of the connection, and keeps the wake-up and the spacing |
| `PoolRuns.LowWaterDoes` | src/ConnectionPool/ConnectionPool.cpp:183-222 | when policyLowWater returns, connections exceed low water or no row is available; table, scan and timer are untouched |
| `PoolRuns.RefreshDoes` | src/ConnectionPool/ConnectionPool.cpp:619-708 | scanRefresh leaves the pool awake and spaced, makes no row available and unschedules none |
| `PoolRuns.StepDoes` | src/ConnectionPool/ConnectionPool.cpp:72-708 | every step keeps the wake-up and the spacing and makes no row available |
| `PoolRuns.RunGood` | src/ConnectionPool/ConnectionPool.cpp:72-708 | every state of every run has the invariant, the wake-up and the spacing |
| `PoolSpec.DueShrinks` | src/ConnectionPool/ConnectionPool.cpp:665-708 | each round of scanRefresh puts one due row off, so its recursion ends |
| `PoolSpec.AvailableShrinks` | src/ConnectionPool/ConnectionPool.cpp:183-222 | each round of policyLowWater takes one available row, so its recursion ends |
| `PoolInvariant.StepKeeps` | src/ConnectionPool/ConnectionPool.cpp:72-708 | every step of the pool keeps the invariant on peers, maps and scan |
| `PoolInvariant.RefreshKeeps` | src/ConnectionPool/ConnectionPool.cpp:619-708 | scanRefresh keeps the invariant, only adds peers, and a scan it starts is of a new peer |
| `PoolInvariant.HelloKeeps` | src/Peer/Peer.cpp:593-642 | the hello step (peerVerified, peerConnected, detach when refused) keeps the invariant |
| `PoolInvariant.DetachKeeps` | src/Peer/Peer.cpp:82-118 | detach ends with both maps and the scan free of the peer |
| `ConnectionPoolImpl.ConnectionPool.ScanRefresh` | src/ConnectionPool/ConnectionPool.cpp:619-708 | the recursive method terminates and is the scanRefresh relation |
| `ConnectionPoolImpl.ConnectionPool.PolicyLowWater` | src/ConnectionPool/ConnectionPool.cpp:183-222 | the recursive method terminates and is the policyLowWater relation; its peerConnect never finds an entry |
| `ConnectionPoolImpl.ConnectionPool.PeerConnect` | src/ConnectionPool/ConnectionPool.cpp:292-332 | a known address gives nothing; a new one a new peer in the map |
| `ConnectionPoolImpl.ConnectionPool.PeerConnected` | src/ConnectionPool/ConnectionPool.cpp:367-422 | the three outcomes of peerConnected, of which HelloOutcome says whom they connect |
| `ConnectionPoolImpl.ConnectionPool.PeerDisconnected` | src/ConnectionPool/ConnectionPool.cpp:425-459 | removes the key only when it is this peer's |
| `ConnectionPoolImpl.ConnectionPool.PeerVerified` | src/ConnectionPool/ConnectionPool.cpp:567-600 | a completed scan unschedules its row unless we found ourselves, and scanning goes on |
| `ConnectionPoolImpl.ConnectionPool.PeerScanSet` | src/ConnectionPool/ConnectionPool.cpp:464-507 | schedules an unscheduled row and says whether it did |
| `ConnectionPoolImpl.ConnectionPool.PeerClosed` | src/ConnectionPool/ConnectionPool.cpp:512-565 | is the peerClosed relation |
| `ConnectionPoolImpl.ConnectionPool.PeerAvailable` | src/ConnectionPool/ConnectionPool.cpp:140-180 | returns an available row, or there is none |
| `ConnectionPoolImpl.ConnectionPool.SavePeer` | src/ConnectionPool/ConnectionPool.cpp:99-134 | says whether the row is new, inserts it due at once, keeps the invariant |
| `ConnectionPoolImpl.ConnectionPool.ConnectTo` | src/ConnectionPool/ConnectionPool.cpp:274-287 | is a step of the pool and keeps the invariant |
| `ConnectionPoolImpl.ConnectionPool.Start` | src/ConnectionPool/ConnectionPool.cpp:72-79 | is a step of the pool and keeps the invariant |
| `ConnectionPoolImpl.ConnectionPool.ScanHandler` | src/ConnectionPool/ConnectionPool.cpp:602-616 | is a step of the pool and keeps the invariant |
| `ConnectionPoolImpl.ConnectionPool.Detach` | src/Peer/Peer.cpp:82-118 | is a step of the pool and keeps the invariant |
| `ConnectionPoolImpl.ConnectionPool.Hello` | src/Peer/Peer.cpp:593-642 | is a step of the pool, whose outcome HelloOutcome states, and keeps the invariant |
| `BigNum.MpiRoundTrip` | shared/bignum.h:267-289 | the MPI bytes keep every integer, whatever its sign |
| `BigNum.VchRoundTrip` | shared/bignum.h:267-289 | setvch undoes getvch |
| `BigNum.CompactRoundTrip` | shared/bignum.h:291-325 | for n >= 0 of at most 255 bytes: SetCompact(GetCompact(n)) is at most n, differs by less than 256^(s-3), not at all for s <= 3, and has the same compact form |
| `BigNum.CompactMonotone` | shared/bignum.h:314-325 | GetCompact is monotone on those numbers |
| `BigNum.CBigNum.SetCompact` | shared/bignum.h:291-312 | holds the number whose MPI bytes the compact form spells, missing bytes being zero |
| `BigNum.CBigNum.GetCompact` | shared/bignum.h:314-325 | packs the size and the first three bytes, cut to 32 bits |
| `Base58Text.DecodeEncode` | shared/base58.h:28-112 | decoding undoes encoding for every byte string, leading zeros included |
| `Base58Text.EncodeDecode` | shared/base58.h:28-112 | encoding undoes decoding for every text of letters |
| `Base58Text.DecodePadded` | shared/base58.h:70-112 | spaces around a text are ignored |
| `Base58Text.DecodeAccepts` | shared/base58.h:70-112 | a text is accepted if and only if it is letters between spaces |
| `CText.SpacesAre` | shared/base58.h:77-78 | the six characters isspace takes in the C locale |
| `Base58Text.EncodeBase58` | shared/base58.h:28-63 | the division loop and the zero loop give the encoding |
| `Base58Text.DecodeBase58` | shared/base58.h:70-112 | the multiplication loop and the zero loop give the decoding, or its refusal |
| `Base58Text.CheckRoundTrip` | shared/base58.h:124-150 | a text with check bytes gives the bytes back, for any hash |
| `Base58Text.CheckAccepts` | shared/base58.h:133-150 | a text is accepted with its check bytes if and only if it is the text of some bytes and their hash |
| `Base58Text.EncodeMeans` | shared/base58.h:28-63 | in base 58 the text is the number the bytes are in base 256, with as many first letters as leading zeros |
| `Address.OwnVersionOnly` | shared/base58.h:196-226 | an address's text is accepted by the setter of its own version, restoring its data, and by no other |
| `Address.AcceptedIsText` | shared/base58.h:196-226 | whatever a setter accepts is the text of the address it sets, between spaces |
| `Address.GenericRefuses` | src/NewcoinAddress/NewcoinAddress.cpp:712-725 | setSeedGeneric refuses every account and node text |
| `Address.GenericRestores` | src/NewcoinAddress/NewcoinAddress.cpp:712-743 | setSeedGeneric restores a seed from its own text |
| `Address.GenericWords` | src/NewcoinAddress/NewcoinAddress.cpp:650-743 | the words of a seed restore its 128 bits if and only if none is the lost one; otherwise they are taken for a pass phrase |
| `Address.GenericPhrase` | src/NewcoinAddress/NewcoinAddress.cpp:712-743 | any text that is not empty, that no setter accepts and that does not hold the words of a key is a pass phrase |
| `Address.GenericKeyText` | src/NewcoinAddress/NewcoinAddress.cpp:731-735 | a text that holds the words of a key is that key |
| `Address.KeyReversed` | src/NewcoinAddress/NewcoinAddress.cpp:658-666 | the words are of the bytes of the seed from the last to the first |
| `Address.NewcoinAddress.SetString` | shared/base58.h:196-212 | sets version and data when the text is accepted, and clears the object when not |
| `Address.NewcoinAddress.SetSeed1751` | src/NewcoinAddress/NewcoinAddress.cpp:691-705 | returns the code of eng2key; sets the seed the words give when it is 1, and leaves the object alone otherwise |
| `Address.NewcoinAddress.SetSeedGeneric` | src/NewcoinAddress/NewcoinAddress.cpp:712-743 | refused texts leave the object unchanged; every other text makes it the seed of its own text, the key of its words, or that of the pass phrase, as GenericRestores, GenericKeyText and GenericPhrase say |
| `Rfc1751.ExtractLocal` | shared/rfc1751.cpp:241-262 | extract depends only on the bits asked for, though it loads three bytes |
| `Rfc1751.InsertAllPacks` | shared/rfc1751.cpp:288-316 | the six insertions at bits 0, 11, .. 55 put every bit where the words say |
| `Rfc1751.PackGroups` | shared/rfc1751.cpp:241-316 | the groups extracted from a buffer make that buffer again |
| `Rfc1751.GroupsOfPacked` | shared/rfc1751.cpp:241-316 | the groups extracted from what words made are those words |
| `Rfc1751Keys.Wsrch` | shared/rfc1751.cpp:346-371 | the binary search finds a word where it is, or that it is nowhere in the range |
| `Rfc1751Keys.LookupWord` | shared/rfc1751.cpp:398-400 | every word of the dictionary is found at its own index, but for the one at 570 |
| `Rfc1751Keys.EtobBtoe` | shared/rfc1751.cpp:266-419 | words made from eight bytes read back as these bytes if and only if none is the lost one; else the code is 0 |
| `Rfc1751Keys.BtoeEtob` | shared/rfc1751.cpp:266-419 | six words that etob accepts are exactly btoe of its result |
| `Rfc1751Keys.BeyondIgnored` | shared/rfc1751.cpp:266-419 | memory beyond the nine-byte buffers, which extract loads, changes neither btoe nor etob |
| `Rfc1751Keys.KeyRoundTrip` | shared/rfc1751.cpp:427-463 | eng2key of key2eng is the key if and only if none of its twelve groups is 570; else the code is 0 |
| `Rfc1751Keys.AcceptedIsKeyText` | shared/rfc1751.cpp:427-463 | a text eng2key accepts holds the words of the key it gives |
| `Rfc1751Keys.Eng2KeyIff` | shared/rfc1751.cpp:427-463 | a text is accepted as a key if and only if its words are those of the key's own text, as written, and none is the lost one |
| `Rfc1751Parity.CheckBitsAre` | shared/rfc1751.cpp:273-277 | the low two bits of the sixth group are the sum of the 32 pairs of bits of the eight bytes, modulo four |
| `Rfc1751Parity.EtobChecks` | shared/rfc1751.cpp:379-419 | words with any check bits are accepted if the bits are that sum, and refused with -2 if not |
| `Rfc1751Parity.OnePairCaught` | shared/rfc1751.cpp:409-414 | a change of one pair of bits changes the check bits, and is refused with -2 |
| `Rfc1751Texts.EtobCodes` | shared/rfc1751.cpp:374-419 | the first unknown word decides: -1 for its length, 0 otherwise; known words fail only with -2 |
| `Rfc1751Texts.WordsOfSpread` | shared/rfc1751.cpp:433-438 | words are read off whatever white space is around and between them |
| `Rfc1751Keys.LostKey` | shared/rfc1751.cpp:398-400 | a key whose own text is refused |
| `Rfc1751Keys.WordsOfLine` | shared/rfc1751.cpp:433-438 | trimming and splitting gives back the words written on a line |
| `Rfc1751Keys.InsertInto` | shared/rfc1751.cpp:288-316 | insert in place; the memory behind the buffer stays |
| `Rfc1751Keys.SumPairs` | shared/rfc1751.cpp:273-275 | the parity loop sums the 32 pairs of bits, the sum CheckBitsAre states byte by byte |
| `Rfc1751Keys.ReadWords` | shared/rfc1751.cpp:379-419 | the loop of etob gives its result or its code -2, -1 or 0 |
| `Rfc1751Keys.WriteWords` | shared/rfc1751.cpp:266-286 | btoe gives the line of the six words, whatever the buffer held, with the check bits CheckBitsAre states |
| `SerializerSpec.AllRead` | shared/Serializer.cpp:509-586 | any sequence of items that can be written reads back in order through the matching calls, with no bytes left |
| `SerializerSpec.AllReadSame` | shared/Serializer.cpp:286-312 | what reads back is what was added if and only if every tag fits a byte |
| `SerializerSpec.ItemReads` | shared/Serializer.cpp:17-437 | one item in front of any bytes reads back and takes exactly its own bytes |
| `SerializerSpec.WriteOk` | shared/Serializer.cpp:271-312 | adding succeeds if and only if lists have at most 255 items and payloads fit, with assertions on or off |
| `SerializerSpec.AssertionRefuses` | shared/Serializer.cpp:465-472 | payloads that only the assertion refuses are exactly those of 12481 to 918743 bytes |
| `SerializerSpec.TaggedRewrites` | shared/Serializer.cpp:401-437 | with assertions on or off, adding a list that was read reproduces the bytes it took, if and only if every payload fits |
| `SerializerSpec.PrefixUnique` | shared/Serializer.cpp:439-502 | a length has one prefix: encoding a decoded length gives the prefix it came from |
| `SerializerSpec.PrefixForm` | shared/Serializer.cpp:439-463 | the one, two or three bytes of a prefix and the length they stand for |
| `SerializerSpec.ListForm` | shared/Serializer.cpp:286-312 | a list is its count, then for each entry its tag, prefix and payload |
| `SerializerImpl.Serializer.AddVL` | shared/Serializer.cpp:271-277 | appends prefix and payload, or throws before or after doing so |
| `SerializerImpl.Serializer.AddTaggedList` | shared/Serializer.cpp:286-312 | appends the list, returns -1 on more than 255 items, keeps what was appended when it throws |
| `SerializerImpl.Serializer.Add64` | shared/Serializer.cpp:35-47 | appends the eight bytes, most significant first |
| `SerializerImpl.Serializer.GetVL` | shared/Serializer.cpp:336-367 | reads, refuses or throws as the specification says |
| `SerializerImpl.Serializer.GetTaggedList` | shared/Serializer.cpp:401-437 | the loop reads the list, refuses or throws as the specification says |
| `SerializerImpl.Serializer.Get64` | shared/Serializer.cpp:110-120 | reads the number eight bytes spell |
| `SerializerImpl.EncodeLengthLength` | shared/Serializer.cpp:465-472 | throws exactly between 12481 and 918743, and elsewhere is the size of the prefix |
| `SerializerImpl.SerializerIterator.Get` | shared/Serializer.cpp:514-586 | moves past what was read; an exception leaves the position alone |
| `Framing.FramesPrefix` | shared/PackedMessage.cpp:4-53 | frames can be taken apart in one way only |
| `Framing.HeaderReads` | shared/PackedMessage.cpp:35-53 | getLength and getType give the length and the low two bytes of the type |
| `Framing.HeaderIs` | shared/PackedMessage.cpp:4-53 | the six header bytes are the encoding of what they decode to |
| `Framing.FrameBytes` | shared/PackedMessage.cpp:4-28 | the frame byte by byte: length in four bytes, type in two, most significant first, then the body |
| `PeerLink.DeliveredInOrder` | src/Peer/Peer.cpp:267-364 | in every run the messages delivered are a prefix of those given to sendPacket, in order |
| `PeerLink.AllDelivered` | src/Peer/Peer.cpp:41-71 | when nothing is on its way and no end has detached, everything given has been delivered |
| `PeerLink.DetachesIff` | src/Peer/Peer.cpp:41-380 | an end is detaching after a step if and only if it was, or the step closes it, fails, or brings a body above the limit, a handler that drops the peer or a message out of turn |
| `PeerLink.SmoothRunGoesOn` | src/Peer/Peer.cpp:41-380 | in every run without those no end detaches, and while not everything given has been delivered a useful step is possible |
| `PeerLink.UsefulLessens` | src/Peer/Peer.cpp:41-380 | every useful step leaves less to be done, so without new messages such a run ends with everything delivered |
| `PeerLink.OneWrite` | src/Peer/Peer.cpp:41-71 | in every run at most one write is in flight, and messages wait only while one is |
| `PeerLink.NoWriteAfterDetach` | src/Peer/Peer.cpp:267-279 | after detach no write starts, whatever happens |
| `PeerLink.HelloFirst` | src/Peer/Peer.cpp:366-380 | messages are handled only behind a hello, hellos only before all others, no body is above 32 MiB, and at most the last delivered message is not handled |
| `PeerLink.StepKeeps` | src/Peer/Peer.cpp:41-364 | every step conserves the byte stream and keeps queue, read and gate consistent |
| `PeerImpl.PackedMessage.EncodeHeader` | shared/PackedMessage.cpp:4-13 | writes the header and nothing else |
| `PeerImpl.PackedMessage.constructor` | shared/PackedMessage.cpp:15-28 | the buffer is the frame of the message |
| `PeerImpl.Peer.SendPacket` | src/Peer/Peer.cpp:280-293 | keeps one write at a time and the packets in the order given: what was started and what waits is all that was given; while detaching nothing is started |
| `PeerImpl.Peer.HandleWrite` | src/Peer/Peer.cpp:41-71 | keeps the invariant: the peer is detaching afterwards exactly if it was or the write failed; after a good write another is in flight exactly if a packet was waiting, and none is skipped |
| `PeerImpl.Peer.Detach` | src/Peer/Peer.cpp:82-94 | keeps the invariant of both halves; nothing waits any more and no write is touched |
| `PeerImpl.Peer.HandleReadHeader` | src/Peer/Peer.cpp:322-345 | keeps the invariant: nothing is delivered; the peer is detaching exactly if it was, the read failed or the length is above 32 MiB, and otherwise reads the body announced |
| `PeerImpl.Peer.HandleReadBody` | src/Peer/Peer.cpp:347-364 | keeps the invariant: exactly the frame in the buffer is delivered; the peer is detaching exactly if it was, the read failed, the handler drops it or the message is out of turn, and otherwise reads the next header |
| `ConnectionImpl.ConnectionDelivers` | src/Peer/Peer.cpp:267-364 | of every connection of two peers, in each direction: what was delivered at one end is a prefix of what was given at the other, at most one write is in flight, and messages are handled only behind a hello |
| `ConnectionImpl.Connection.SendPacket` | src/Peer/Peer.cpp:280-293 | is the giving of a packet in one direction and nothing in the other; the connection stays a run of both |
| `ConnectionImpl.Connection.HandleWrite` | src/Peer/Peer.cpp:41-71 | is the completion of a write in one direction and, if the peer is detaching, the closing of the other |
| `ConnectionImpl.Connection.HandleRead` | src/Peer/Peer.cpp:322-364 | is the completion of a read in one direction and, if the peer is detaching, the closing of the other |
| `ConnectionImpl.Connection.Detach` | src/Peer/Peer.cpp:82-94 | closes both directions at one end |
| `PeerLink.ProcessKeeps` | src/Peer/Peer.cpp:366-380 | handing on any message within the limit keeps the gate: all but a last message out of turn are let through, hellos before all others |
| `BatchSpec.InsideIff` | json/json_batchallocator.h:53-110 | every block of every run lies in its batch if and only if objectsPerPage is a multiple of objectPerAllocation |
| `BatchSpec.NewBlockDisjoint` | json/json_batchallocator.h:53-77 | in every run a new block is none of the live ones and overlaps none of them |
| `BatchSpec.LiveInside` | json/json_batchallocator.h:53-110 | in the even case all live blocks of every run are inside their batches and pairwise disjoint |
| `BatchSpec.Overruns` | json/json_batchallocator.h:61-75 | in the uneven case objectsPerPage + 1 allocations leave the batch |
| `BatchSpec.InsideUpTo` | json/json_batchallocator.h:101-110 | up to objectsPerPage allocations stay inside even then |
| `BatchSpec.BlocksConserved` | json/json_batchallocator.h:53-110 | in every run live, free and unused blocks are all blocks, and every batch after the current one is full |
| `BatchSpec.StepKeeps` | json/json_batchallocator.h:53-86 | allocations and releases of live blocks keep the invariant |
| `BatchSpec.ReleaseAllocate` | json/json_batchallocator.h:53-86 | the block released last is allocated next, and that undoes the release |
| `BatchSpec.GrowsOnlyWhenFull` | json/json_batchallocator.h:61-73 | a batch is made if and only if no block is free and every batch is full |
| `BatchAllocatorImpl.BatchAllocator.Allocate` | json/json_batchallocator.h:53-77 | takes the head of the free list, or carves a block, as the state machine says |
| `BatchAllocatorImpl.BatchAllocator.FindRoom` | json/json_batchallocator.h:61-73 | the walk down the list finds a batch that is not full, or makes one |
| `BatchAllocatorImpl.BatchAllocator.Release` | json/json_batchallocator.h:81-86 | threads the block into the free list through its own memory |

## Left out

- JSON comments as text (`collectComments`, comments printed by StyledWriter): the reader skips comment tokens, and `JsonGrammar` places them only before a value; the writers write comment-free trees.
- Doubles: what `sscanf` and `sprintf` do is not visible, so scanning and showing a double are parameters; a failed scan is the `NotANumber` error.
- `StyledStreamWriter`, a near copy of `StyledWriter`; `Path`; line, column and text of error messages.
- `Value::operator<=` and the other comparisons of values; `json/json_internalarray.inl` and `json/json_internalmap.inl`, which are not compiled in.
- Texts are sequences of characters standing for bytes; a signed `char` above 0x7F is not told from an unsigned one, which matters to no branch modelled here.
- Peer objects of the pool are entries of a table instead of shared pointers, so their lifetimes are not modelled; locks are not, since every public method is one step.
- SQL statements always succeed; timers, sockets and handshakes are events; `splitIpPort`, `getTopNAddrs`, `relayMessage` and the peer lists are easy members.
- Times in the pool are integers without the database's text form; only the doubled scan interval is cut to 32 bits.
- `recvHello` and the other handlers are commented out in the source; its order of calls is the hello step, and what a handler does to the connection is a parameter in `PeerLink`.
- The four bytes of length in front of an MPI number, OpenSSL's arithmetic, and the remaining operators of `CBigNum`.
- SHA-256, key derivation and pass phrases: the hash and `PassPhraseToKey` are parameters, key validity (`isValid`) is not modelled.
- The dictionary of RFC 1751 is a parameter with the order and the lengths of the table in the source.
- Lengths of vectors beyond the range of `int`, where `encodeVL` would see a negative length, and the iterator's `getRaw`, which moves without checking.
- `Serializer` signatures and hashes, `chop`, `removeLastByte`, `getTaggedListLength`.
- The read buffer of a `Peer` is what has been read so far; the zero bytes it is resized with beforehand are not kept.
- A handler that answers a message does so as a separate event after the message; the other effects of `detach`, on the pool, are in `PoolSpec`.
- Destruction of the batch allocator, and the bytes of its batch headers.
- Wallet, ledger, UniqueNodeList, HTTP, configuration and logging.
