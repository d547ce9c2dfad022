# Verified model of an eSIM remote provisioning stack

This project models, in Dafny, the parts of the repository where octets and sessions must not be
mixed up, and proves what they promise:

- the lpac C library under `lpac/euicc`: the DER engine with its three-pass in-place packer, the ES10x
  transport over a shared request buffer, SHA-256, Bound Profile Package loading, base64, hexadecimal and
  swapped-nibble texts, integers and bit strings, and the session slots of the ES9+/ES10b wrappers;
- `pysim/osmo-smdpp.py`, the SM-DP+ server: its session store, its handlers, and its object identifier decoder;
- `lpac/dlfcn-win32/dlfcn.c`: the doubly linked list of local modules;
- `gui/services/profile_store.py` and its client `mno/services/lpa_command.py`: the profile database;
- `pysim/pySim/commands.py`: chunked access to transparent files.

Each file is one module; those named Facts or Example hold theorems only. Code that works in place is
modelled in place: arrays for buffers, classes for structs, node objects linked by `child` and `next`, loops
where the source loops. Beside each such method stands a specification on values, and the theorems are about it.

What crosses the edge of the program is a parameter. A smart card is a finite script of answers, any script
at all; where a card that follows the protocol matters, it is a relation between what was sent and what was
answered (`TransportFacts.Honest`): it understands well-formed blocks on its channel and a GET RESPONSE for
just the length it has announced, and turns down anything else. Replies of servers, random draws, the moment
of a crash, and what a file lookup finds are parameters of the calls. Certificates, signatures, JSON and ASN.1
decoding are functions of a server or store record, with no property assumed of signatures at all.

The results to read first:

- `DerUtil.Pack`, with `Der.DecodeEncoded` and `DerUtil.RowOctets`: the size, pointer and copy passes write
  exactly the recursive encoding or nothing, each node's range holds its own encoding, and decoding gives the
  tree back.
- `Transport.Ctx.CommandIter`, with `TransportFacts.Segmented` and `TransportFacts.SplittingDoesNotShow`:
  segmentation is exact even when the request lies in the buffer that is being overwritten, and neither the
  segment size nor the card's splitting shows in the result.
- `Sha256.Context.Final`: streaming in any chunks gives the digest of FIPS 180-4, whose functions are stated
  bit by bit and whose constants as roots of primes in `Sha256Facts`; `Sha256Example.AbcDigest` works through
  the published example.
- `BppLoad.CardReceivesPackage`, with `BppFacts.LoadSucceedsExactly`: the card receives the package, whole on
  success and a prefix on failure, and the load succeeds exactly when every answer says success.
- `Session.EveryLoadHasItsOwnInitiation`, `Session.HeldExactly` and `Session.RequestNamesItsTransactionExactly`.
- `Smdpp.EveryPackageIsAuthorised`, with `Smdpp.RepliesAreAuthorised`: no package, and no end of a session,
  without an authentication of that very session; `Smdpp.PackageExactly` and `Smdpp.HonestDownload`: an eUICC that
  proves itself gets its package.
- `ProfileStore.FileHoldsWhatLanded`: calls that are stopped at any step of a write leave, over whole
  histories, exactly what the calls that landed would leave by themselves.
- `CancelSession.CardCancelsThisSession`: packer, transport, parser, integer codec and base64 together.

Where the code does not do what its surroundings suggest, the model keeps the code and states exactly when
the expected property holds:

- `long2bin` writes eight octets for every negative number, so it is minimal exactly for numbers that are not
  negative or lie below -2^55 (`DerInteger.EncodingStandsForValue`).
- Nothing stops an LPA from starting a second session over a first one, whose items are then sent under the
  wrong transaction id (`Session.PostsCanNameAnother`). A request names its own transaction exactly when the
  id that transaction was initiated with has not been replaced since, in any run
  (`Session.RequestNamesItsTransactionExactly`); bringing ids only while nothing of an earlier transaction is
  under way is enough (`Session.PostsNameTheirTransaction`).
- Sessions are stored under upper-case identifiers and notifications are looked up in lower case, so a
  genuine profile installation result ends its session exactly when the identifier has no letter
  (`Smdpp.ResultEndsItsSessionExactly`).
- A profile added as enabled can be a second enabled one (`ProfileStore.OneEnabledExactly`).
- `bin2gsmbcd` returns the place of the last character, one less than the length of the text, and trims a
  text that really ends in f (`Hex.BcdRoundTrip`).
- `gsmbcd2bin` counts what is left to fill in 32 bits, so hexadecimal text that the buffer holds and
  `padding_to` does not has no defined result. A call of `es10b.c` is of this kind for every IMEI it does not
  turn down, and one of `es10c.c` for identifiers of 21 to 31 digits (`Hex.CallsOverrunExactly`).
- Reading or updating no octets at all ends in an exception, because the status word is never set
  (`BinaryFile.ReadResult`).

## Model

| member | source | states |
|---|---|---|
| Der.WalkTiles | lpac/euicc/derutil.c:66-75 | what a loop over unpack_next visits and what it leaves unread tile the input, for any octets |
| Der.ReadHeaderLocal | lpac/euicc/derutil.c:6-64 | octets behind a complete TLV do not change how it reads |
| Der.ReadEncoded | lpac/euicc/derutil.c:6-64 | an encoded element reads back with its tag, length and content, whatever follows |
| Der.WalkEncoded | lpac/euicc/derutil.c:66-75 | walking an encoded forest visits exactly its elements in order and reads everything |
| Der.DecodeEncoded | lpac/euicc/derutil.c:6-96 | recursive reading of the encoding of a typed forest gives the whole tree back |
| Der.EncodingIsInjective | lpac/euicc/derutil.c:167-233 | two typed forests with the same octets are the same forest |
| Der.HeaderExamples | lpac/euicc/derutil.c:98-125 | tags of one and two octets, and lengths on the borders of the short and long forms |
| Der.LongLengths | lpac/euicc/derutil.c:36-52 | the long form is read with any number of length octets, keeping the low 32 bits, and fails exactly when octets are missing |
| DerUtil.SizeofSingleNode | lpac/euicc/derutil.c:98-125 | self.length becomes the length of the node's encoding |
| DerUtil.SizePass | lpac/euicc/derutil.c:127-152 | every node of the forest gets its content length and its encoded length, the result is the length of the whole, and no other node changes |
| DerUtil.PtrPass | lpac/euicc/derutil.c:154-165 | every node points at the place in the buffer where its octets begin in the encoding |
| DerUtil.CopySingleNode | lpac/euicc/derutil.c:167-205 | one node's header, and its value if it has no child, replace exactly their own range of the buffer |
| DerUtil.CopyPass | lpac/euicc/derutil.c:207-217 | the copy pass splices exactly the encoding of the forest into the buffer |
| DerUtil.Pack | lpac/euicc/derutil.c:224-233 | either the encoding is written at its place and nothing else changes, or the buffer is too small, -1 is returned and nothing is written |
| DerUtil.RowOctets | lpac/euicc/derutil.c:154-217 | the range a node is given in the encoding of the forest holds exactly that node's own encoding |
| DerParse.UnpackLength | lpac/euicc/derutil.c:36-52 | the length octets read as the low 32 bits of their big-endian number, or fail when they are cut off |
| DerParse.UnpackFirst | lpac/euicc/derutil.c:6-64 | success exactly when the octets start with a whole TLV, and then the node describes it |
| DerParse.UnpackNext | lpac/euicc/derutil.c:66-75 | the same for the octets behind the previous node, with result and prev possibly the same |
| DerParse.FindIsFirst | lpac/euicc/derutil.c:77-91 | the sibling found is the first of the walk with a wanted tag, and there is none exactly when the walk has none |
| DerParse.UnpackFindAliasTags | lpac/euicc/derutil.c:77-91 | the loop ends on any octets and finds exactly that first sibling or returns -1 |
| DerParse.UnpackFindTag | lpac/euicc/derutil.c:93-96 | the same for one tag |
| DerInteger.EncodingStandsForValue | lpac/euicc/derutil.c:255-282 | the octets are the two's complement of the value, and minimal exactly when it is not negative or lies below -2^55 |
| DerInteger.BackToLong | lpac/euicc/derutil.c:247-282 | reading the octets back gives the value for every long, without wrapping when it is not negative |
| DerInteger.CountOctets | lpac/euicc/derutil.c:256-269 | the shift loop finds the least number of octets for a value that is not negative and eight for a negative one |
| DerInteger.Long2Bin | lpac/euicc/derutil.c:255-282 | the octets replace the start of the buffer, or the buffer is too small and is left alone |
| DerInteger.Bin2Long | lpac/euicc/derutil.c:247-253 | the result is the big-endian number in 64-bit two's complement |
| DerBits.Bits2BinSizeof | lpac/euicc/derutil.c:284-293 | the size is that of the greatest bit number |
| DerBits.SizeIsLeast | lpac/euicc/derutil.c:284-293 | the size is the least that has an octet for every bit |
| DerBits.Bits2Bin | lpac/euicc/derutil.c:295-309 | the bits set in the octets are exactly the given ones and no bit is unused, or the buffer is too small and is left alone |
| DerBits.BitsExample | lpac/euicc/derutil.c:304-306 | bit 0 is the most significant bit of the first octet |
| DerBits.FlagIsUsedBit | lpac/euicc/derutil.c:343-347 | the mask clears exactly the unused bits of the last octet |
| DerBits.Bin2BitsStr | lpac/euicc/derutil.c:321-378 | the list is exactly the texts of the used described bits in ascending order with one null behind them: the counting pass and the filling pass agree |
| DerBits.DescriptionsComeBack | lpac/euicc/derutil.c:295-378 | a set of bits written and read back yields exactly its own texts |
| Transport.Ctx.Header | lpac/euicc/interface.c:7-37 | the five header octets are set and the body of the shared buffer is not touched |
| Transport.Ctx.Transmit | lpac/euicc/euicc.c:12-16 | the logical channel replaces the low half of the class byte, one request is sent, and the answer is split into data and status word |
| Transport.Ctx.TransmitIter | lpac/euicc/euicc.c:18-54 | a command and all the GET RESPONSEs it draws are sent as IterRun says, and their data gathered, ending for every script, with the body of the buffer left alone |
| Transport.Ctx.BuildRequest | lpac/euicc/euicc.c:56-77 | the segment's octets are those the source held before the header was written, though source and buffer may be the same |
| Transport.Ctx.CommandIter | lpac/euicc/euicc.c:79-110 | the segments sent are those of the original request even when it lies in the buffer that each segment overwrites |
| Transport.Ctx.Command | lpac/euicc/euicc.c:131-148 | the response is all gathered data on success and nothing on failure |
| TransportFacts.Segmented | lpac/euicc/euicc.c:79-110 | data fields join to the request, or to a prefix on failure; all but the completing block carry exactly mss octets with P1 0x11, that one has P1 0x91, and P2 counts modulo 256 |
| TransportFacts.IterInTurn | lpac/euicc/euicc.c:18-54 | whatever the card does, every command after the first is a GET RESPONSE of five octets on the channel for exactly the length the answer before it announced, and success means the last answer was 9xxx |
| TransportFacts.CommandInTurn | lpac/euicc/euicc.c:18-110 | over a whole request, after an answer 61xx comes that GET RESPONSE, and after 9xxx the next STORE DATA on the channel |
| TransportFacts.IterFetches | lpac/euicc/euicc.c:18-54 | against a card that hands out its answer in pieces, only to a GET RESPONSE for the length announced, the loop ends within a known number of commands and gathers all of the answer |
| TransportFacts.Transparent | lpac/euicc/euicc.c:79-148 | a request is answered with exactly the card's full response |
| TransportFacts.SplittingDoesNotShow | lpac/euicc/euicc.c:79-148 | the result is the same for any two segment sizes, channels and ways in which the card splits its answer |
| Sha256.Context.constructor | lpac/euicc/sha256.c:86-97 | a new context has taken in nothing |
| Sha256.Context.FillSchedule | lpac/euicc/sha256.c:49-52 | the in-place schedule is the recursive one of section 6.2.2 of FIPS 180-4 |
| Sha256.Context.RunRounds | lpac/euicc/sha256.c:54-74 | the loop over eight variables computes the 64 rounds |
| Sha256.Context.Transform | lpac/euicc/sha256.c:46-84 | the state becomes the compression of the old state with the block, for every state and block |
| Sha256.Context.Update | lpac/euicc/sha256.c:99-111 | the context has taken in the new octets behind the old ones, however many blocks that completes |
| Sha256.ZeroCountIsLeast | lpac/euicc/sha256.c:116-129 | the number of zeros is the least that leaves room for exactly the length octets, as section 5.1.1 of FIPS 180-4 asks |
| Sha256.Context.Pad | lpac/euicc/sha256.c:116-129 | in both cases what is hashed and what is left in the buffer, with the length octets, are the padded message |
| Sha256.Context.PutDigest | lpac/euicc/sha256.c:145-154 | the octets of the eight words are written most significant first and nothing else changes |
| Sha256.Context.Final | lpac/euicc/sha256.c:113-155 | the output is the digest of everything taken in, whatever the chunks it came in |
| Sha256.ChainPrefix | lpac/euicc/sha256.c:99-111 | octets still to come do not change the hash value of earlier blocks |
| Sha256.HashCc | lpac/euicc/es10b.c:94-104 | hashCC is SHA256(SHA256(code) followed by the transaction id), with one array as input and output of the second hash |
| Sha256Facts.ChBits | lpac/euicc/sha256.c:27 | each bit is that of y or of z, as the bit of x chooses |
| Sha256Facts.MajBits | lpac/euicc/sha256.c:28 | each bit is the majority of three |
| Sha256Facts.Ep0Bits | lpac/euicc/sha256.c:29 | bit i is the parity of bits i + 2, i + 13 and i + 22 around the end of the word |
| Sha256Facts.Ep1Bits | lpac/euicc/sha256.c:30 | the same for 6, 11 and 25 |
| Sha256Facts.Sig0Bits | lpac/euicc/sha256.c:31 | bit i is the parity of bits i + 7 and i + 18 around the end and of bit i + 3 if there is one |
| Sha256Facts.Sig1Bits | lpac/euicc/sha256.c:32 | the same for 17, 19 and 10 |
| Sha256Facts.WordNumber | lpac/euicc/sha256.c:49-50 | four octets of the message are a big-endian word |
| Sha256Facts.WordOfOctets | lpac/euicc/sha256.c:146-153 | the four octets written for a word make up that word |
| Sha256Facts.JoinedFrom | lpac/euicc/sha256.c:146-153 | octets grouped into words and written out again are what they were |
| Sha256Facts.WideNumber | lpac/euicc/sha256.c:133-140 | the length octets are the number modulo a power of 256, most significant first |
| Sha256Facts.ConstantsFromRoots | lpac/euicc/sha256.c:35-96 | the t-th round constant is the first 32 bits of the fraction of the cube root of the t-th prime, and the initial words those of the square roots |
| Sha256Example.AbcDigest | lpac/euicc/sha256.c:46-155 | the digest of the message "abc" is the published one |
| Base64.EncodedLength | lpac/euicc/base64.c:72 | an encoding has four characters for each three octets begun |
| Base64.DecodeEncode | lpac/euicc/base64.c:33-99 | decoding an encoding gives the octets back |
| Base64.BasisIsTheAlphabet | lpac/euicc/base64.c:74-99 | the characters are those of Table 1 of RFC 4648 |
| Base64.EncodingExamples | lpac/euicc/base64.c:74-99 | the encodings of f, fo, foo and foobar are those of section 10 of RFC 4648 |
| Base64.Encode | lpac/euicc/base64.c:74-99 | exactly encode_len octets are written, the encoding and a NUL |
| Base64.DecodeLen | lpac/euicc/base64.c:18-31 | the length announced is enough for what decode writes |
| Base64.Decode | lpac/euicc/base64.c:33-70 | exactly the decoded octets and a NUL are written for any terminated text, and their number is returned |
| Base64.Trim | lpac/euicc/es9p.c:17-27 | the text held becomes the text without its white space, in place |
| Base64.InsertedSpaceVanishes | lpac/euicc/es9p.c:17-27 | a white-space character put anywhere into a text does not change what trimming leaves |
| Base64.SpreadSqueezes | lpac/euicc/es9p.c:17-27 | any amount of white space at any places of a text does not change what trimming leaves |
| Base64.TrimmedDecodes | lpac/euicc/es9p.c:17-27 | an encoding with any white space between, before and behind its characters decodes to the original octets after trimming |
| Hex.HexRoundTrip | lpac/euicc/hexutil.c:24-75 | octets survive the way to text and back |
| Hex.TextRoundTrip | lpac/euicc/hexutil.c:24-75 | a text of even length survives the way to octets and back, in lower case |
| Hex.HexDigitIs | lpac/euicc/hexutil.c:24-37 | the digits are 0 to 9 and a to f |
| Hex.HexExamples | lpac/euicc/hexutil.c:24-97 | octets as text, and an odd number of swapped digits with its filling |
| Hex.SwapTwice | lpac/euicc/hexutil.c:18-22 | swapping twice changes nothing |
| Hex.GsmbcdSwapChars | lpac/euicc/hexutil.c:18-22 | exactly the pairs up to the length are exchanged in place |
| Hex.Bin2Hex | lpac/euicc/hexutil.c:24-37 | the text and a NUL are written when they fit, and nothing otherwise |
| Hex.Hex2Bin | lpac/euicc/hexutil.c:43-75 | success exactly for hexadecimal text of even length that fits, and then the octets it stands for |
| Hex.Gsmbcd2Bin | lpac/euicc/hexutil.c:77-97 | the outcome is that of Gsmbcd; when it is a length, the swapped octets of the text stand in the buffer, filled up with 0xFF to padding_to, and nothing else changes |
| Hex.OverrunsExactly | lpac/euicc/hexutil.c:77-97 | a length is returned exactly for hexadecimal text that padding_to holds, and the filling leaves the buffer exactly for longer hexadecimal text that the buffer holds |
| Hex.CallsOverrunExactly | lpac/euicc/es10b.c:605 | of the three calls, the nickname's never overruns, that of a profile identifier does for 21 to 32 hexadecimal digits (its caller takes 32 another way), and that of an IMEI for every text it does not turn down, unless empty |
| Hex.Bin2Gsmbcd | lpac/euicc/hexutil.c:99-112 | the swapped text without trailing f characters stands in the buffer, NUL behind it |
| Hex.BcdRoundTrip | lpac/euicc/hexutil.c:77-112 | a text comes back from its padded octets exactly when it has one digit or does not end in f; a decimal text of odd or even length always does |
| Bpp.PackageConserved | lpac/euicc/es10b.c:309-389 | the slices planned for a laid-out package join to exactly its octets |
| BppLoad.CheckAnswer | lpac/euicc/es10b.c:181-278 | the searches through an answer in place come to AnswerOk of its octets |
| BppLoad.Tx | lpac/euicc/es10b.c:165-287 | one slice is sent as one command and its answer judged |
| BppLoad.LoadDecoded | lpac/euicc/es10b.c:309-399 | what is sent is the planned slices in order up to the first bad answer, and success means all parts were found and all answers good |
| BppLoad.LoadBoundProfilePackage | lpac/euicc/es10b.c:289-399 | the same from the base64 text |
| BppLoad.FailureSticks | lpac/euicc/es10b.c:321-389 | after a bad answer nothing more is sent |
| BppLoad.CardReceivesPackage | lpac/euicc/es10b.c:289-399 | the data fields of all commands of a load join to the package on success and to a prefix of it on failure |
| BppFacts.FoundEncoded | lpac/euicc/derutil.c:77-96 | searching an encoded forest for a tag finds the place, header and content of the first element that has it |
| BppFacts.PlanEncoded | lpac/euicc/es10b.c:309-389 | of an encoded package the slices are: its header with the first part, the second part, the metadata header and each element, the keys if any, the profile element header and each element |
| BppFacts.AnswerOkExactly | lpac/euicc/es10b.c:181-278 | an encoded answer lets the load go on if and only if it is empty or holds BF37 with BF27 in it, and in that BF2F and an A2 that begins with A0 |
| BppFacts.ReportDecides | lpac/euicc/es10b.c:199-276 | of two reports that differ in the tag of the final result, the one with A0 lets the load go on and any other stops it |
| BppFacts.SlicesSucceedExactly | lpac/euicc/es10b.c:165-287 | against a card that follows the protocol, slices go through if and only if all its answers say success |
| BppFacts.LoadSucceedsExactly | lpac/euicc/es10b.c:309-399 | a load returns 0 if and only if every mandatory part was found and every answer says success |
| CancelSession.PackRequest | lpac/euicc/es10b.c:700-719 | the request of transaction id and reason is encoded into the body of the request buffer, or does not fit and nothing is written |
| CancelSession.RequestOctets | lpac/euicc/es10b.c:700-719 | the octets of a short request, each one spelled out |
| CancelSession.AnswerIsWhole | lpac/euicc/es10b.c:721-735 | an answer that is a cancel session TLV is given back whole |
| CancelSession.CancelSessionR | lpac/euicc/es10b.c:684-747 | the request is sent from the buffer it was packed into, and the text is the base64 of the answer's own TLV |
| CancelSession.CardCancelsThisSession | lpac/euicc/es10b.c:684-747 | the card reads back exactly this transaction and reason, the call succeeds exactly when the answer holds the TLV, and the text decodes to it |
| Session.Context.GetEuiccChallengeAndInfo | lpac/euicc/es10b.c:819-849 | both slots are filled or both are left empty |
| Session.Context.InitiateAuthentication | lpac/euicc/es9p.c:428-464 | success uses up challenge and info and fills the server parameters; failure keeps them but may leave a new transaction id behind |
| Session.Context.AuthenticateServer | lpac/euicc/es10b.c:851-881 | success moves the server parameters on to a response and their transaction id; failure drops the transaction id |
| Session.Context.AuthenticateClient | lpac/euicc/es9p.c:492-521 | success moves the response on to download parameters; each of the one or two requests sent carries the response and the current transaction id |
| Session.Context.DiscoverEvents | lpac/euicc/es9p.c:542-559 | success uses the response up |
| Session.Context.PrepareDownload | lpac/euicc/es10b.c:775-802 | success moves the download parameters on to a response |
| Session.Context.GetBoundProfilePackage | lpac/euicc/es9p.c:466-490 | success uses the response up and keeps the reply of the server as the package |
| Session.Context.LoadBoundProfilePackage | lpac/euicc/es10b.c:804-817 | the package held is handed to the card, and used up whether or not it is installed |
| Session.Context.CancelSession | lpac/euicc/es10b.c:883-911 | a cancel response is made only for a transaction id held and not empty |
| Session.Context.ReportCancel | lpac/euicc/es9p.c:523-540 | success uses the cancel response up |
| Session.Context.HttpCleanup | lpac/euicc/euicc.c:184-198 | every slot is empty |
| Session.AdmittedExactly | lpac/euicc/es10b.c:775-911 | a call gets past its guards if and only if what it uses is held, what it fills is empty, and the transaction to cancel is not the empty one |
| Session.SucceedsExactly | lpac/euicc/es10b.c:775-911 | it then succeeds if and only if everything it asks for comes |
| Session.SlotExactly | lpac/euicc/es9p.c:428-559 | slot by slot, a call fills it with what it was given, or empties it, or leaves it alone |
| Session.HeldExactly | lpac/euicc/es9p.c:428-559 | in every run a slot holds an item if and only if the last call that made one was given it and no call has emptied the slot since |
| Session.HandedIsDelivered | lpac/euicc/es10b.c:775-911 | in every run, each item handed to the card or the server is what the last call that made it was given; a load hands over the latest package fetched |
| Session.HandedInFull | lpac/euicc/es10b.c:775-911 | a call that gets past its guards hands on everything it uses |
| Session.PostsCarryTheItem | lpac/euicc/es9p.c:466-559 | how many requests on a transaction a call sends, and that each carries the item handed on |
| Session.Conserved | lpac/euicc/es9p.c:428-559 | in every run since the last cleanup, results made less results used up are the occupancy of each slot |
| Session.NoStageOutrunsAnEarlier | lpac/euicc/es10b.c:775-911 | loads never outnumber packages, packages preparations, and so on back to challenges, and at most six challenges are under way |
| Session.HeldTogether | lpac/euicc/es10b.c:819-881 | challenge and info are held together, and a held server response has its transaction id |
| Session.CleanupForgets | lpac/euicc/euicc.c:184-198 | after a cleanup a run is as if it began there |
| Session.InOrder | lpac/euicc/es9p.c:428-559 | items keep the order of their initiations along the stages and none is in two places |
| Session.EveryLoadHasItsOwnInitiation | lpac/euicc/es10b.c:804-817 | packages handed to the card go back to successful initiations, in order, no two to the same one, over any run with any cleanups |
| Session.RequestNamesItsTransactionExactly | lpac/euicc/es9p.c:428-559 | in every run, whatever the caller does, each request sent goes back to a call that brought an id, and names it if and only if no later call has replaced it by another |
| Session.WithFreshIdsExactly | lpac/euicc/es9p.c:428-559 | when no two initiations bring the same id, that is if and only if none has brought an id since |
| Session.IdStaysExactly | lpac/euicc/es9p.c:428-464 | the bookkeeping behind the next row: when all that is under way belongs to the id held, a call keeps that so if and only if it does not bring a new id while something is under way |
| Session.PostsNameTheirTransaction | lpac/euicc/es9p.c:466-559 | when ids are brought only while no response, parameters or download response are held, every request but a report of a cancel names the transaction of its item; with no binary id or cancel response left either, so do those |
| Session.PostsCanNameAnother | lpac/euicc/es9p.c:428-521 | a run in which a response of one transaction is sent under the id of another, though the second initiation failed |
| Smdpp.SmDpPlus.CiGetCertForPkid | pysim/osmo-smdpp.py:435-445 | the first certificate with the identifier |
| Smdpp.SmDpPlus.ValidateCertificateChainForVerification | pysim/osmo-smdpp.py:447-459 | success exactly when the server's certificate chains to one of the identifiers |
| Smdpp.SmDpPlus.ValidateEidRange | pysim/osmo-smdpp.py:345-367 | success exactly when the EID is in range |
| Smdpp.EidExactly | pysim/osmo-smdpp.py:345-367 | in range are exactly the EIDs of 32 characters that begin with a permitted number, but for case |
| Smdpp.SmDpPlus.InitiateAuthentication | pysim/osmo-smdpp.py:533-614 | store, reply and record are those of OnInitiate, with its loops over certificates and identifiers |
| Smdpp.SmDpPlus.AuthenticateClient | pysim/osmo-smdpp.py:616-746 | store, reply and record are those of OnAuthenticate, though a copy of the session changes with each check |
| Smdpp.SmDpPlus.GetBoundProfilePackage | pysim/osmo-smdpp.py:748-833 | store, reply and record are those of OnGetPackage |
| Smdpp.SmDpPlus.HandleNotification | pysim/osmo-smdpp.py:835-893 | store, reply and record are those of OnNotify |
| Smdpp.SmDpPlus.CancelSession | pysim/osmo-smdpp.py:900-943 | store, reply and record are those of OnCancel |
| Smdpp.ChosenIssuedOurs | pysim/osmo-smdpp.py:564-576 | a CI is chosen exactly when the eUICC offers the issuer of the server's own certificate and the server holds it |
| Smdpp.RunRecorded | pysim/osmo-smdpp.py:533-943 | in every run the store holds exactly the sessions opened and not closed, each as its opening and last authentication left it |
| Smdpp.EveryPackageIsAuthorised | pysim/osmo-smdpp.py:533-943 | every package issued and every session closed rests on an opening and a last authentication of that session: chain to the chosen CI, signed challenge, permitted EID; the same certificate signed the download request over what was sent then, or signed the closing of this very session |
| Smdpp.RepliesAreRecorded | pysim/osmo-smdpp.py:533-943 | a reply opens, grants or hands out a package exactly when the same goes on record, and no session appears or goes away but on record |
| Smdpp.RepliesAreAuthorised | pysim/osmo-smdpp.py:748-943 | after any run, the next reply carries a package, or the next request ends a session, only under such an authorisation |
| Smdpp.InitiatedExactly | pysim/osmo-smdpp.py:533-614 | after any run, a session is opened if and only if the request names this server, is well formed, offers the issuer of its certificate, accepts its chain, and the identifier is not in use |
| Smdpp.GrantedExactly | pysim/osmo-smdpp.py:616-746 | an eUICC is let in if and only if its session is open, its response proves the challenge under a chain to the chosen CI with a permitted EID, and a profile is found |
| Smdpp.PackageExactly | pysim/osmo-smdpp.py:748-833 | a package is handed out if and only if the session is authenticated, 64 octets of signature verify over the request and what was sent before, the request names the transaction, and that package was bound |
| Smdpp.CancelledExactly | pysim/osmo-smdpp.py:900-943 | a session is cancelled if and only if it is authenticated and the cancellation is signed, for this server and this transaction |
| Smdpp.HonestDownload | pysim/osmo-smdpp.py:533-833 | an eUICC that may open a session, proves the challenge and signs its request gets its package, whatever requests about other transactions come between |
| Smdpp.RefusalsSay | pysim/osmo-smdpp.py:533-943 | the codes for an unknown transaction, a forged signature and a foreign server |
| Smdpp.SessionKeepsItsTerms | pysim/osmo-smdpp.py:611-829 | challenge, CI and identifier of a session never change, and its certificate only by authentication |
| Smdpp.SessionEndsUnderItsCertificate | pysim/osmo-smdpp.py:845-942 | a session goes away only under a signature that its stored certificate verifies and that names the session |
| Smdpp.RefusalsLeaveTheStore | pysim/osmo-smdpp.py:533-943 | a refused request leaves the store as it was, but for the one-time key of a package that could not be encoded |
| Smdpp.NotificationFindsItsSession | pysim/osmo-smdpp.py:580-849 | the lookup key of a session's own installation result is in the store exactly when the identifier has no letter |
| Smdpp.ResultEndsItsSessionExactly | pysim/osmo-smdpp.py:835-893 | after any run, an installation result ends a session if and only if it names its identifier, is signed under its certificate, and the identifier has no letter |
| Smdpp.LetteredSessionStays | pysim/osmo-smdpp.py:848-868 | a session with a letter in its identifier outlives its genuine installation result |
| ObjectId.DecodeEncode | pysim/osmo-smdpp.py:72-98 | wherever the encoding of section 8.19 of X.690 lies in the data, its arcs come back and exactly its octets are used, for every valid identifier |
| ObjectId.EncodeDecode | pysim/osmo-smdpp.py:72-98 | octets that decode to their end are the encoding of the result if and only if every subidentifier is minimal as section 8.19.2 of X.690 asks |
| ObjectId.DecodedIsValid | pysim/osmo-smdpp.py:84-98 | whatever decodes is a valid identifier: the first arc is at most 2, and the second below 40 under 0 and 1 |
| ObjectId.EncodingIsInjective | pysim/osmo-smdpp.py:72-98 | encodings tell identifiers apart |
| ObjectId.EncodingExample | pysim/osmo-smdpp.py:72-98 | the encoding of 1.2.840.113549 is 2A 86 48 86 F7 0D |
| ObjectId.DecodeObjectIdentifier | pysim/osmo-smdpp.py:72-98 | the loops compute that decoding, or fail where the data ends too soon |
| ModuleList.List.Search | lpac/dlfcn-win32/dlfcn.c:113-125 | the object of the module is found exactly when the module is listed, and never the sentinel |
| ModuleList.List.Add | lpac/dlfcn-win32/dlfcn.c:127-154 | the list becomes what Step says of local_add: exactly an absent module that is not null is appended, memory allowing, and the list stays well linked |
| ModuleList.List.Rem | lpac/dlfcn-win32/dlfcn.c:156-174 | the list becomes what Step says of local_rem: exactly the given module is unlinked, the rest keep their order, and the list stays well linked |
| ModuleList.RunListsTheAdded | lpac/dlfcn-win32/dlfcn.c:127-174 | after any calls the modules are distinct and are exactly those added and not removed since |
| ModuleList.RunKeepsTheOrder | lpac/dlfcn-win32/dlfcn.c:127-174 | after any calls the modules stand in the order in which they were added |
| ProfileStore.Store.WriteAtomic | gui/services/profile_store.py:94-121 | stopped before any step the database file is whole and durable, the old one or the new one, and an exception leaves no trace |
| ProfileStore.Store.AddProfile | gui/services/profile_store.py:148-164 | the file follows from what it held as Follows says: the result when done, the same after an exception, either of the two after a crash |
| ProfileStore.Store.EnableProfile | gui/services/profile_store.py:166-195 | likewise; on success exactly the target is enabled |
| ProfileStore.Store.DisableProfile | gui/services/profile_store.py:197-222 | likewise; on success the target is disabled |
| ProfileStore.Store.DeleteProfile | gui/services/profile_store.py:224-255 | likewise; on success exactly the target is gone |
| ProfileStore.Store.GetProfile | gui/services/profile_store.py:128-138 | the first profile that matches |
| ProfileStore.DeletedExactly | gui/services/profile_store.py:224-255 | deletion succeeds if and only if the first match is disabled, and takes out that one; all others keep order and contents |
| ProfileStore.EnabledExactly | gui/services/profile_store.py:166-195 | after enabling, the first match and no other is enabled, and nothing else is changed |
| ProfileStore.DisabledExactly | gui/services/profile_store.py:197-222 | disabling succeeds if and only if the first match is enabled, and changes only that |
| ProfileStore.AddedExactly | gui/services/profile_store.py:148-164 | a profile is put last if and only if its matching id is empty or new |
| ProfileStore.Store.DeleteByIccidForMno | mno/services/lpa_command.py:118-132 | the two store calls leave the result of deletion by ICCID, or what was there when stopped |
| ProfileStore.OneEnabledExactly | gui/services/profile_store.py:148-255 | an operation keeps at most one profile enabled if and only if it does not add a second enabled one |
| ProfileStore.IdsStayDistinct | gui/services/profile_store.py:148-255 | matching ids that are not empty stay pairwise distinct |
| ProfileStore.RunIsSound | gui/services/profile_store.py:148-255 | over all runs that add profiles disabled, at most one is enabled and matching ids are distinct |
| ProfileStore.FileHoldsWhatLanded | gui/services/profile_store.py:94-255 | in every history of calls done, stopped by exceptions or crashed, at every moment the profiles and the EID are what the calls that landed leave by themselves from an empty list; when profiles are added disabled, at most one is enabled and matching ids are distinct |
| ProfileStore.DeleteByIccidRemovesTheFirst | mno/services/lpa_command.py:118-132 | exactly the first profile with the ICCID goes, when it is disabled and has a matching id, and nothing otherwise |
| BinaryFile.ClassByteNamesTheChannel | pysim/pySim/commands.py:39-55 | the class byte names the channel asked for and keeps its other bits |
| BinaryFile.EmbeddedExactly | pysim/pySim/commands.py:39-55 | a channel can be embedded if and only if the class byte is one for its range |
| BinaryFile.LastChannelCounts | pysim/pySim/commands.py:39-55 | of two channels put into a class byte the last one counts |
| BinaryFile.SimCardCommands.ReadBinary | pysim/pySim/commands.py:297-326 | for any chunk limit the result is the requested slice when it lies in a readable file, and an exception otherwise |
| BinaryFile.ReadsToTheEnd | pysim/pySim/commands.py:304-311 | without a length a read gives the file from the offset on, and from offset 0 all of it |
| BinaryFile.SimCardCommands.WriteChunks | pysim/pySim/commands.py:371-385 | the data replaces its range up to the first chunk that does not fit |
| BinaryFile.SimCardCommands.UpdateBinary | pysim/pySim/commands.py:341-388 | the file is the same with conserve on or off; nothing is written exactly when conserve finds the data there already, and otherwise the call returns exactly when there is data, all of it was written and, if asked, it reads back |
| BinaryFile.LandsWhole | pysim/pySim/commands.py:371-385 | a write lands whole exactly when its range is inside the file |
| BinaryFile.UpdateOverwritesItsRange | pysim/pySim/commands.py:341-388 | data that fits replaces exactly its range, for any chunk limit |
| BinaryFile.UpdateReadsBack | pysim/pySim/commands.py:328-388 | what was written reads back as the same text in lower case, so that verification succeeds |

## Left out

- Allocation failure in lpac: malloc, calloc and realloc succeed, except in `ModuleList.List.Add`.
- DerUtil.Pack: sources of node values do not overlap the output buffer, and lengths stay below 2^32; `pack_alloc` is the same passes on a new buffer.
- Der.DecodeEncoded: tags of one octet, or of two with the first octet's low five bits set, which are the ones the parser accepts; headless nodes hold whole TLVs where a walk is to read them.
- Base64.Encode: C `int` lengths do not overflow.
- DerBits.Bits2Bin: bit numbers stay below 2^32 - 8, where the size computation would wrap.
- DerBits.Bin2BitsStr: at most eight unused bits, beyond which the C shift has no defined result.
- DerInteger.Bin2Long: more than eight octets, or a set sign bit, shift out of a signed long in C; the model wraps as two's complement does.
- Hex.Gsmbcd2Bin: what memory holds after an overrun, which C does not define.
- Hex.Hex2Bin: the build with LIBEUICC_REDUCED_STDLIB_CALL, and what a failed call has already written.
- Sha256.Context.Final: messages of 2^64 bits and more, which section 5.1.1 of FIPS 180-4 excludes.
- BppLoad.CheckAnswer: the sequence number, command id and error reason copied into the result struct.
- BppLoad.CardReceivesPackage: packages whose parts stand in another order, or with parts of other tags between them, are loaded by the same model but not claimed to be conserved.
- The other callers of the transport (notification lists, profile lists, ISD-R discovery) repeat the pattern of `CancelSession` and would add easy members.
- Session.RequestNamesItsTransactionExactly: HTTP and JSON; a reply is one parameter, and a second one where authenticateClient posts again.
- The operator lists of `es10b_get_rat`, whose list pointer never advances.
- Smdpp.EveryPackageIsAuthorised: signatures and chains are uninterpreted, the signed part of a response is decoded from the octets whose signature is checked, and the store is the file-backed one.
- Smdpp.SmDpPlus.GetBoundProfilePackage: key agreement, protection and encoding of the package, and the download history.
- Smdpp.SmDpPlus.HandleNotification: download history records; no claim is made about success notifications.
- Smdpp.RefusalsSay: the codes of the other refusals are as the code has them, with no claim beyond the handlers.
- Sha256Facts.ConstantsFromRoots: the table of the first 64 primes is given, not derived.
- ObjectId.DecodeObjectIdentifier: the dotted text made of the arcs.
- ModuleList.List.Rem: freeing the removed object; the Windows loader around the list.
- ProfileStore.Store.WriteAtomic: the directory is never synced, so after a rename a loss of power can still bring the older file back; two processes writing at once, file locks, and the creation of the first file.
- BinaryFile.SimCardCommands.UpdateBinary: the expansion of dotted data, select commands and their answers, the returned text (the data once per chunk), and notes added to exceptions.
- Records, BER-TLV files and secure channels in `commands.py`.
- GUI, subprocess control, Klein and Twisted, and certificate generation.
