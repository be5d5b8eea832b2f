# A verified model of the SITARA3552 voice terminal

The repository holds the software of a small voice terminal: a SIP client that places one call, plays a
file into it and records what comes back, and kernel drivers that bring the voice of received packets to
a DMA engine. This project models four parts of it in Dafny and proves what they do on all inputs and
over all runs.

- **MD5 and HTTP Digest.** `Words` has 32-bit words and their bit operations as arithmetic, and
  `Buffers` what memcpy and its kin do; `Md5Spec` is the algorithm of RFC 1321 on whole messages, and
  `Md5Vector` derives a value of the RFC's test suite from it, on the byte operations of `Md5Bytes`;
  `Md5` is the streaming code of md5.c with its arrays updated in place; `HttpDigest` is digcalc.c, a
  client of the streaming theorem, against RFC 2617.
- **The SIP client.** `CText` has C strings and the substring search; `SipText` and `SipRequests` have
  the printers and the search-based parser, and how far they undo each other; `SipHeaders` has what the
  parser makes of any message, and `SipServer` what it makes of the program's own requests; `SipCall` is the two-level
  state machine, one step at a time, against an arbitrary network and file system; `SipRuns` has what
  holds over every run, and `SipInvites` what the INVITEs of a run say; `SipDialog` has what the program
  and its server read of each other, and `SipReactions` what a received text makes the program do, told
  on the text itself; `SipExample` is a whole call with a message that is answered
  wrongly; `SipPhone` is the program in its own form, an object with buffers updated in place, every
  method proved against the functions of `SipCall`.
- **The G.711 codec.** `G711` has both companders with error bounds, order and round trips.
- **The voice path.** `VoicePath` is the packet handler, the byte FIFO, the timer and the DMA
  completion; `VoiceRuns` has what holds over every interleaving of them.

## How to read the model

- A C string is the sequence of its bytes before the terminating zero; `strstr` is `Find`. A search that
  would run off the string because a delimiter is missing is `Unterminated`, and the steps of the call
  are defined only where none occurs (`SipText.Parsable`). `mcode` has no room for a terminating zero;
  the byte behind it is taken not to be a digit.
- `SipCall.Input` is one step of the environment: the file that is read, the number that random()
  returns, whether a send succeeds, whether the output file can be opened, and what the two sockets
  deliver. The log of actions is what the program does to the outside, call by call.
- Undefined behaviour is excluded by `SipCall.Defined`: texts fit the 1024-byte buffers, what the parser
  takes from a text fits its buffers of 20 and 255 bytes (`SipText.Storable`), and the file is shorter
  than the file buffer. An input file that cannot be opened makes the program seek on a null pointer and
  is excluded as well. An output file that cannot be opened is not excluded: the program then goes on
  with a null pointer for a file. C defines nothing after a call of fputc or fclose on a file that is not
  open; the log tells the calls the program makes, and `SipRuns.OutputFile` when each finds the file open.
- MD5 words are 32 bits wide, as `UINT4` is on the ARM target, and `char` is unsigned there, which
  matters where a recorded byte overwrites the file position.

## Where the code differs from what one may expect

Each of these is proved.

- The INVITE without credentials has an empty line too early, so its Content-Length is two too small
  (`SipRequests.ContentLengthIsRight`, and over runs `SipInvites.SentInvites`).
- The parser takes the first place where a name occurs, be it in a value, and keeps the carriage return
  of the value. So the answer to a message can be read with other fields than the message had, which
  happens exactly when `SipText.Recoverable` fails (`SipText.AnswerRoundTrip`); `SipExample` has a message
  and a call in which it does.
- A received text is not ended, so the remainder of the previous text in the buffer is parsed with it
  (`SipCall.ReceivedText`); fields that the received text has are not affected (`SipText.ParseStays`),
  and a field that it lacks is taken from the remainder (`SipCall.ReceivedFields`,
  `SipExample.LeftoverIsTaken`).
- The first byte of the file is never sent and the end-of-file mark is (`SipRuns.FileIsPlayed`).
- The result of opening the output file is not looked at, so that packets are written and the file is
  closed without one (`SipRuns.OutputFile`, `SipExample.CallWithoutFile`).
- The output file is closed again after every failed send of the answer to BYE (`SipRuns.OutputFile`;
  in `SipExample.CallEnds` it is closed twice).
- The FIFO reports the bytes offered, not those kept (`VoicePath.Driver.SetData`).
- A type-96 packet of odd size leaves half a sample in the queue (`VoiceRuns.WholeSamplesExactly`).
- Of every 4000-byte period the last 32 bytes are not transferred (`VoiceRuns.TransferGeometry`).
- Any received text without the word SIP ends a pending call as refused (`SipReactions.NoSipRefuses`).
- md5-sess puts the raw hash, not its hexadecimal form, into A1 (`HttpDigest.DigestCalcHA1`), as the
  sample code of RFC 2617 does.

## Model

| member | source | states |
|---|---|---|
| Md5Spec.FChoosesByX | target_board/app/linux/sip/src/md5.c:64 | Bit k of F is bit k of Y where X has a one, and of Z elsewhere, as section 3.4 of RFC 1321 describes it. |
| Md5Spec.GChoosesByZ | target_board/app/linux/sip/src/md5.c:65 | Bit k of G is bit k of X where Z has a one, and of Y elsewhere. |
| Md5Spec.HIsParity | target_board/app/linux/sip/src/md5.c:66 | Bit k of H is the parity of the three bits. |
| Md5Spec.IFlipsY | target_board/app/linux/sip/src/md5.c:67 | Bit k of I is bit k of Y, flipped where X is set or Z is clear. |
| Md5Spec.RotateInverse | target_board/app/linux/sip/src/md5.c:71 | The rotation by two shifts and an or is undone by the rotation to the right, on both sides. |
| Md5Spec.StepsAreReversible | target_board/app/linux/sip/src/md5.c:193-263 | For every block and every state, undoing the 64 steps in reversed order gives the state back, and so does doing what was undone: before the feed-forward the block permutes the four-word states. |
| Md5.MacroIsStep | target_board/app/linux/sip/src/md5.c:76-95 | The macro that the code uses in step i, with that step's message word, rotation and constant, is step i of the recurrence of section 3.4 of RFC 1321. |
| Md5.FourMacros | target_board/app/linux/sip/src/md5.c:194-197 | Four macros with rotated argument lists are four steps of the recurrence, after which the registers are back in their places. |
| Md5.Round1Start | target_board/app/linux/sip/src/md5.c:193-201 | The first eight unrolled lines of round 1 take the state after 0 steps to the state after 8. |
| Md5.Round1 | target_board/app/linux/sip/src/md5.c:193-209 | The sixteen unrolled lines of round 1, with their literal indices and constants, take the state after 0 steps to the state after 16. |
| Md5.Round2Start | target_board/app/linux/sip/src/md5.c:211-219 | The first eight unrolled lines of round 2 take the state after 16 steps to the state after 24. |
| Md5.Round2 | target_board/app/linux/sip/src/md5.c:211-227 | The sixteen lines of round 2 do likewise for steps 17 to 32, whose message indices are 1 + 5i modulo 16. |
| Md5.Round3Start | target_board/app/linux/sip/src/md5.c:229-237 | The first eight unrolled lines of round 3 take the state after 32 steps to the state after 40. |
| Md5.Round3 | target_board/app/linux/sip/src/md5.c:229-245 | The sixteen lines of round 3 do likewise for steps 33 to 48, whose message indices are 5 + 3i modulo 16. |
| Md5.Round4Start | target_board/app/linux/sip/src/md5.c:247-255 | The first eight unrolled lines of round 4 take the state after 48 steps to the state after 56. |
| Md5.Round4 | target_board/app/linux/sip/src/md5.c:247-263 | The sixteen lines of round 4 do likewise for steps 49 to 64, whose message indices are 7i modulo 16. |
| Md5.Transform | target_board/app/linux/sip/src/md5.c:185-274 | In place, the state array becomes the compression of its old contents with the block: the 64-step recurrence and the feed-forward addition. |
| Md5.Encode | target_board/app/linux/sip/src/md5.c:279-292 | Words become bytes, low-order byte first; what lies behind them in the output array stays. |
| Md5.Decode | target_board/app/linux/sip/src/md5.c:297-307 | Bytes become words, low-order byte first, although the code joins them by shifts and or. |
| Md5Spec.DecodeEncode | target_board/app/linux/sip/src/md5.c:279-307 | Decoding encoded words gives the words. |
| Md5Spec.EncodeDecode | target_board/app/linux/sip/src/md5.c:279-307 | Encoding decoded bytes gives the bytes. |
| Md5.CountIsLength | target_board/app/linux/sip/src/md5.c:125-128 | The two-word counter with its carry found by comparison counts the message length in bits modulo 2^64, whatever the earlier length. |
| Md5.Context.CountBits | target_board/app/linux/sip/src/md5.c:125-128 | The in-place counter update is that function of the old counter. |
| Md5.Context.Init | target_board/app/linux/sip/src/md5.c:99-109 | The context stands for the empty message, and its state, as bytes, is that of section 3.3 of RFC 1321: 01 23 45 67 89 ab cd ef fe dc ba 98 76 54 32 10. |
| Md5.Context.TransformBlocks | target_board/app/linux/sip/src/md5.c:130-145 | Every block that the buffered bytes and the input complete has gone into the state; what is left is shorter than a block. |
| Md5.Context.Update | target_board/app/linux/sip/src/md5.c:115-151 | The context invariant is kept (state = fold of the compression over the complete blocks, buffer = the rest, counter = length in bits), and the bytes absorbed are the old ones followed by the input. |
| Md5.Context.Final | target_board/app/linux/sip/src/md5.c:156-181 | The digest array holds the RFC 1321 digest of all bytes absorbed since Init; state, counter and buffer are wiped. |
| Md5.DigestOfPieces | target_board/app/linux/sip/src/md5.c:115-181 | However a message is cut into updates, also into empty ones, the digest is that of the whole message. |
| Md5Spec.AbsorbTail | target_board/app/linux/sip/src/md5.c:134-150 | The bytes left over from a message, followed by more bytes, may take the place of the whole message. |
| Md5Spec.PaddedIsInjective | target_board/app/linux/sip/src/md5.c:163-173 | Padding and length forget nothing: messages below 2^61 bytes with the same padded form are the same. |
| Md5Bytes.MixIsBytewise | target_board/app/linux/sip/src/md5.c:64-67 | On any words, F, G, H and I are the built-in and, or, exclusive or and complement applied byte by byte. |
| Md5Vector.DigestOfAlphabet | target_board/app/linux/sip/src/md5.c:99-274 | The digest of the 26 letters a to z is c3fcd3d76192e4007dfb496cca67e13b, the value of appendix A.5 of RFC 1321, derived through all 64 steps: with another entry in a table, another rotation, message index, initial word, padding or byte order it would be another value. |
| HttpDigest.CvtHex | target_board/app/linux/sip/src/digcalc.c:6-27 | The array is the lower-case hexadecimal form of the 16 bytes and a terminating zero. |
| HttpDigest.HexIsReadable | target_board/app/linux/sip/src/digcalc.c:14-25 | The hexadecimal form can be read back to the bytes and uses only 0-9 and a-f. |
| HttpDigest.HexDigits | target_board/app/linux/sip/src/digcalc.c:14-25 | Digits 2k and 2k + 1 are the characters of 0123456789abcdef for the high and the low half of byte k. |
| HttpDigest.SameUpToCase | target_board/app/linux/sip/src/digcalc.c:50 | The comparison that ignores case holds exactly for texts of one length whose bytes are equal or the two forms of one letter. |
| HttpDigest.A1Is | target_board/app/linux/sip/src/digcalc.c:43-58 | A1 is user, colon, realm, colon, password; for md5-sess it is the raw digest of that, colon, nonce, colon, client nonce. |
| HttpDigest.A2Is | target_board/app/linux/sip/src/digcalc.c:81-89 | A2 is method, colon, address, and for auth-int a colon and the entity hash. |
| HttpDigest.ResponseTextIs | target_board/app/linux/sip/src/digcalc.c:93-108 | What is hashed last is H(A1), colon, nonce, colon, with a qop the nonce count, client nonce and qop with a colon behind each, and H(A2). |
| HttpDigest.HashThree | target_board/app/linux/sip/src/digcalc.c:43-58 | Five updates on a context yield the digest of three texts joined by colons. |
| HttpDigest.DigestCalcHA1 | target_board/app/linux/sip/src/digcalc.c:30-61 | For every algorithm name, the session key is the hexadecimal H(A1) of section 3.2.2.2 of RFC 2617 with its zero; for md5-sess, in any case of letters, the raw 16 bytes of the first hash go into A1, as in the code. The contract also says it without naming A1: the hash of user, colon, realm, colon, password. |
| HttpDigest.HashA2 | target_board/app/linux/sip/src/digcalc.c:81-90 | The hash of A2 of section 3.2.2.3, with the entity hash exactly for auth-int. |
| HttpDigest.HashResponse | target_board/app/linux/sip/src/digcalc.c:93-109 | The hash of the response text of section 3.2.2.1, with nonce count, client nonce and qop exactly when the qop is not empty. |
| HttpDigest.DigestCalcResponse | target_board/app/linux/sip/src/digcalc.c:64-111 | For every combination of qop and its absence, the response is the hexadecimal hash of the colon-joined texts over H(A1) and H(A2), with its zero; also said with the two texts written out. |
| G711.Search | target_board/drv/linux/Ab_arm_codec.c:154-164 | The first table entry that the value does not exceed, or the table size. |
| G711.UlawSegment | target_board/drv/linux/include/Ab_arm_codec.h:72 | The table search puts a biased magnitude into the segment s with 32 * 2^s <= magnitude < 64 * 2^s. |
| G711.AlawSegment | target_board/drv/linux/include/Ab_arm_codec.h:71 | The table search puts a magnitude into the segment s that starts at 16 * 2^s, and what is below 32 into segment 0. |
| G711.UlawDecodesToMiddle | target_board/drv/linux/Ab_arm_codec.c:254-305 | Decode after encode puts every integer sample into the middle of its quantization step, with its sign. |
| G711.UlawError | target_board/drv/linux/Ab_arm_codec.c:254-305 | For every integer sample the decoded magnitude is within 2^(s+2) of the clipped magnitude, s being the segment field of the code. |
| G711.UlawIsMonotone | target_board/drv/linux/Ab_arm_codec.c:254-305 | Decode after encode is non-decreasing over all integers. |
| G711.UlawByteRoundTrip | target_board/drv/linux/Ab_arm_codec.c:254-305 | Encoding a decoded byte gives the byte back for all 256 bytes, except that negative zero 0x7F becomes 0xFF. |
| G711.UlawIsIdempotent | target_board/drv/linux/Ab_arm_codec.c:254-305 | For every integer sample, encoding what was decoded changes the code no more, and the code 0x7F is never produced. |
| G711.UlawLevels | target_board/drv/linux/Ab_arm_codec.c:254-305 | All 256 levels: the complement of a code is a sign bit, a segment s and a value q, which mean (8q + 132) * 2^s - 132; silence has the code 0xFF. |
| G711.AlawDecodesToMiddle | target_board/drv/linux/Ab_arm_codec.c:177-243 | Decode after encode puts every integer sample into the middle of its A-law step, with its sign. |
| G711.AlawError | target_board/drv/linux/Ab_arm_codec.c:177-243 | For every 16-bit sample the decoded sample is within 2^(max(s, 1) + 2) of it. |
| G711.AlawSaturates | target_board/drv/linux/Ab_arm_codec.c:177-243 | Every decoded magnitude lies between 8 and 32256, and beyond the 16-bit range it is 32256. |
| G711.AlawIsMonotone | target_board/drv/linux/Ab_arm_codec.c:177-243 | Decode after encode is non-decreasing over all integers. |
| G711.AlawIsMirrored | target_board/drv/linux/Ab_arm_codec.c:177-211 | Encoding -x - 1 flips the sign bit of the code of x and nothing else, for every integer x. |
| G711.AlawByteRoundTrip | target_board/drv/linux/Ab_arm_codec.c:177-243 | Encoding a decoded byte gives the byte back for all 256 bytes. |
| G711.AlawLevels | target_board/drv/linux/Ab_arm_codec.c:214-243 | All 256 levels: a code with the bits of 0x55 flipped is a sign bit, a segment s and a value q, which mean 16q + 8 in segment 0 and (16q + 264) * 2^(s - 1) elsewhere; the level 8 has the code 0xD5. |
| VoicePath.UlawDecoder | target_board/drv/linux/Ab_arm_codec.c:89-129 | The output buffer holds the decoded samples of the payload; what lies behind them stays. |
| VoicePath.UlawFitsShort | target_board/drv/linux/Ab_arm_codec.c:107-128 | Every u-law byte decodes into [-32124, 32124], so that storing it as a short loses nothing. |
| VoicePath.ReencodedPayload | target_board/drv/linux/Ab_arm_codec.c:107-128 | Encoding every decoded sample gives the payload back with only 0x7F bytes changed to 0xFF. |
| VoicePath.ReadByteView | target_board/drv/linux/Ab_arm_itdmdrv.c:92-94 | The byte view of samples, read as signed little-endian 16-bit numbers, is the samples. |
| VoicePath.ByteViewIs | target_board/drv/linux/Ab_arm_itdmdrv.c:92-94 | Sample k is in bytes 2k and 2k + 1, the low-order one first. |
| VoicePath.Driver.SetData | target_board/drv/linux/Ab_arm_fifodrv.c:116-138 | The queue grows by as many of the offered bytes as it has room for; the result is the number offered, or 0 for a full queue, and it is the number of bytes kept if and only if the packet fits or the queue was full already. |
| VoicePath.Driver.GetData | target_board/drv/linux/Ab_arm_fifodrv.c:148-183 | The bytes at the head of the queue move to the caller's buffer, in order, as many as are wanted and there. |
| VoicePath.Driver.HandlePacket | target_board/drv/linux/Ab_arm_itdmdrv.c:51-177 | The new state is that of a packet event: PCMU payload decoded and viewed as bytes, type-96 payload as it is, other types ignored, and the accepted part at the end of the queue; the contract also gives the new queue with payload offset 54, type byte 43, types 0 and 96 and capacity 8192 written out. |
| VoicePath.Driver.TimerTick | target_board/drv/linux/Ab_arm_dmadrv.c:189-238 | The new state is that of a tick: counters, offsets and period count move on; min(4000, |queue|) bytes leave the head of the queue, a number written out in the contract. |
| VoicePath.Driver.EnqueueDma | target_board/drv/linux/Ab_arm_dmadrv.c:423-499 | The transfer that the arithmetic of the code yields is 62 frames of 32 two-byte elements from the current offset in the DMA buffer to the transmit register, with the indices of both sides. |
| VoiceRuns.RunConserves | target_board/drv/linux/Ab_arm_fifodrv.c:116-183 | Over every interleaving of packets, ticks and completions, the bytes taken followed by the bytes queued are what was there first followed by the accepted part of each packet in order of arrival; the queue never exceeds 8192 bytes. |
| VoiceRuns.PcmuRun | target_board/drv/linux/Ab_arm_itdmdrv.c:82-94 | In every run with PCMU packets only, the queue holds whole samples even after overflow, and the bytes taken, read as samples, are the u-law decoding of the accepted payload up to what is still queued. |
| VoiceRuns.WholeSamplesExactly | target_board/drv/linux/Ab_arm_itdmdrv.c:126-132 | With type-96 packets in the run, the queue holds whole samples throughout if and only if no type-96 packet of odd size fits into it. |
| VoiceRuns.OddPacketSplits | target_board/drv/linux/Ab_arm_itdmdrv.c:126-132 | There is such a packet: one byte of raw payload splits a sample on the empty queue. |
| VoiceRuns.Counters | target_board/drv/linux/Ab_arm_dmadrv.c:189-222 | After n >= 1 ticks the DMA offset is 4000 * ((n - 1) mod 16), the CPU offset is the DMA offset mod 16000, and period count plus DMA offset is 4000 * (n - 1) modulo 2^32. |
| VoiceRuns.TickMovesOffset | target_board/drv/linux/Ab_arm_dmadrv.c:189-238 | From the second tick on, a tick moves the DMA offset by 4000 round its 64000 bytes, and it takes as many bytes from the queue if and only if there are 4000. |
| VoiceRuns.QueueDrains | target_board/drv/linux/Ab_arm_dmadrv.c:238 | Without packets, n ticks with any completions between them take the first min(4000n, |queue|) bytes in order, and the queue is empty if and only if 4000n is at least what it held. |
| VoiceRuns.TakenIsBounded | target_board/drv/linux/Ab_arm_dmadrv.c:238 | Over every run, n ticks take at most 4000n bytes. |
| VoiceRuns.WalkIsConsecutive | target_board/drv/linux/Ab_arm_dmadrv.c:475-498 | The source indices that are programmed make the walk visit consecutive addresses, for any number of frames. |
| VoiceRuns.WalkIsRegister | target_board/drv/linux/Ab_arm_dmadrv.c:476-498 | The destination indices make the walk visit the two bytes of one register over and over. |
| VoiceRuns.TransferGeometry | target_board/drv/linux/Ab_arm_dmadrv.c:423-499 | At any completion in any run and wherever the DMA buffer lies, the transfer moves 3968 consecutive bytes once each to the transmit register, from the start of the period the timer last chose, inside that period and inside the 64000-byte buffer. |
| CText.FindIsFirst | target_board/app/linux/sip/src/sip_call.c:215 | The substring search reports no later place than any occurrence. |
| CText.FindPastSeparator | target_board/app/linux/sip/src/sip_call.c:215-222 | A name does not straddle a separator character that it does not contain: the search goes on behind the separator. |
| CText.AtoiOfDec | target_board/app/linux/sip/src/sip_call.c:269 | atoi of a printed number, followed by anything but a digit, is the number. |
| SipText.FieldIsLookup | target_board/app/linux/sip/src/sip_call.c:207-228 | For every list of headers and every name without delimiters, the substring search in the whole text yields what the first header decides that holds the name in its name or its value; this says exactly when and how the search is misled. |
| SipHeaders.ParsedHeaders | target_board/app/linux/sip/src/sip_call.c:272-306 | For every list of clean headers, all eleven fields that the parser stores are the result of the search for their own names on the list: Via, From, To, Call-ID, Server, CSeq, Allow, Supported, Contact, the challenge from WWW-Authenticate, and the number from the name the code spells Content-Lenght. |
| SipHeaders.ParsedMessage | target_board/app/linux/sip/src/sip_call.c:253-306 | The same for a message with a first line in front, for each field whose name the first line does not hold. |
| SipHeaders.StatusIsRead | target_board/app/linux/sip/src/sip_call.c:262-271 | A status line with any number of three digits gives that number as the code, and no command, whatever follows. |
| SipHeaders.CommandIsRead | target_board/app/linux/sip/src/sip_call.c:262-271 | A request gives code 0, and its first word as the command. |
| SipHeaders.FieldOfPieces | target_board/app/linux/sip/src/sip_call.c:207-228 | A search that the headers decide finds the same whatever text follows them. |
| SipText.StorableIs | target_board/app/linux/sip/src/sip_call.c:4-20 | What fits the buffers of a message: at most 19 characters of the command and 254 of each of the eleven fields. |
| SipText.LookupExactly | target_board/app/linux/sip/src/sip_call.c:207-228 | A search whose name is in the name of a header and in no name before it yields that header's value if and only if no earlier value holds the name, or the first one that does has the same text behind the next colon. |
| SipText.FieldEndsInReturn | target_board/app/linux/sip/src/sip_call.c:215-224 | A field that is found ends in a carriage return and has no other; a field that is not found is empty. |
| SipText.ParsedIsClean | target_board/app/linux/sip/src/sip_call.c:253-300 | Hence every parsed message meets the premise of the rows below, and its fields were present or are empty. |
| SipText.AnswerFieldRecovered | target_board/app/linux/sip/src/sip_call.c:182-228 | The parser recovers field i of the answer if and only if it was present and no earlier value misleads the search for it. |
| SipText.AnswerRoundTrip | target_board/app/linux/sip/src/sip_call.c:182-311 | Parsing the answer to a message always gives code 200, every search ends inside the text, and Via, From, To, Contact, Call-ID and CSeq are as they were if and only if each was present and misleads no later search. |
| SipText.AnswerParsable | target_board/app/linux/sip/src/sip_call.c:182-311 | Every field search in an answer ends inside the text, also with fields missing. |
| SipExample.AnswerRoundTripCanFail | target_board/app/linux/sip/src/sip_call.c:182-311 | A BYE with all six fields that can be received, from which Via and From are taken as they stand, and whose answer is read with another From. |
| SipRequests.AckFieldRecovered | target_board/app/linux/sip/src/sip_call.c:155-228 | The parser recovers field i from an ACK if and only if it was present and nothing before it misleads the search, the request line included. |
| SipRequests.AckRoundTrip | target_board/app/linux/sip/src/sip_call.c:155-311 | Parsing an ACK always gives code 0 and the command ACK, and it gives the six fields that were to be acknowledged if and only if each was present and nothing misleads its search. |
| SipRequests.InviteIsRead | target_board/app/linux/sip/src/sip_call.c:66-130 | A receiver that cuts an INVITE at its first blank line gets the twelve lines in order, the credentials as the thirteenth, and behind it exactly the session description; without credentials the blank line comes one line break early. |
| SipRequests.ContentLengthIsRight | target_board/app/linux/sip/src/sip_call.c:95-127 | The decimal number in the Content-Length line is the length of the remaining body (section 20.14 of RFC 3261) if and only if credentials were printed. |
| SipRequests.CSeqIsRead | target_board/app/linux/sip/src/sip_call.c:114 | The number read in the CSeq line of an INVITE is the number printed. |
| SipServer.InviteFieldRead | target_board/app/linux/sip/src/sip_call.c:103-228 | The parser reads each of the eleven headers of an INVITE as it was printed if and only if no value in front of it, the request line included, misleads the search; credentials and body do not matter. |
| SipServer.InviteRoundTrip | target_board/app/linux/sip/src/sip_call.c:103-311 | Parsing an INVITE gives code 0 and the command INVITE, and it gives Via, From, To, Contact, Call-ID and CSeq as made from the account, each written out and each if and only if nothing misleads its search; the request line asks for the address that To gives. |
| SipServer.InviteOffer | target_board/app/linux/sip/src/sip_call.c:109-124 | The same for the hop limit, the allowed methods, the supported extension, the content type and the length. |
| SipServer.InviteIsUnderstood | target_board/app/linux/sip/src/sip_call.c:103-311 | With no capital V, F, T or C in the arguments of the call, all of the six are read. |
| SipServer.SdpIsRead | target_board/app/linux/sip/src/sip_call.c:76-97 | The body of an INVITE, cut into lines, is the session description with the address and RTP port of the account and PCMU as payload type 0. |
| SipServer.AckIsAddressed | target_board/app/linux/sip/src/sip_call.c:155-180 | An ACK asks for the same address as the INVITE, and its hop limit and its length are read if and only if nothing misleads the search. |
| SipServer.AnswerLength | target_board/app/linux/sip/src/sip_call.c:182-205 | The length in the answer to BYE is read, as the number it was, if and only if nothing misleads the search. |
| SipServer.CredentialsAre | target_board/app/linux/sip/src/sip_call.c:132-152 | The credentials in full, character by character, with the response as the hash of H(user:realm:password), the nonce and H(INVITE:address) between colons. |
| SipRequests.ParamIsLookup | target_board/app/linux/sip/src/sip_call.c:230-251 | For every text cut at quotation marks, GetParam yields the piece behind the first piece that holds the name. |
| SipRequests.AuthRealmRead | target_board/app/linux/sip/src/sip_call.c:132-152 | GetParam reads the realm back from printed credentials, or the text behind the user name if that holds the word realm; all values without quotation marks. |
| SipRequests.AuthNonceRead | target_board/app/linux/sip/src/sip_call.c:132-152 | The same for the nonce, which the user name or the realm may hide. |
| SipRequests.ParamHasNoQuote | target_board/app/linux/sip/src/sip_call.c:242-247 | What GetParam takes from any text holds no quotation mark. |
| SipRequests.ParamHasNoReturn | target_board/app/linux/sip/src/sip_call.c:242-247 | It holds no carriage return either, if the text has none but at its end. |
| SipCall.ChallengeIsEchoed | target_board/app/linux/sip/src/sip_call.c:353-355 | For every challenge, the credentials that answer it yield its realm and its nonce when read, under the conditions of `SipRequests.AuthRealmRead` and `SipRequests.AuthNonceRead`. |
| SipCall.ReceivedText | target_board/app/linux/sip/src/sip_call.c:333-340 | The text parsed after a receive is the received text followed by what the buffer still held behind it, so it is the received text if and only if the buffer had a zero there. |
| SipText.ParseStays | target_board/app/linux/sip/src/sip_call.c:253-300 | Text behind a message changes neither the code nor the command nor any of the six fields that is found in the message. |
| SipText.LeftoverFields | target_board/app/linux/sip/src/sip_call.c:253-306 | With text behind a parsable message that ends in a line feed, each of the eleven fields is the message's own if it has one, and that of the text behind it if not. |
| SipCall.ReceivedFields | target_board/app/linux/sip/src/sip_call.c:333-340 | Hence each field of a received message ending in a line feed is read as it is, and each field it lacks is read from what the buffer held behind it. |
| SipExample.LeftoverIsTaken | target_board/app/linux/sip/src/sip_call.c:333-340 | A receive in which the Via field is taken from an earlier message, as the one received has none. |
| SipDialog.ReceivedIsAnswered | target_board/app/linux/sip/src/sip_call.c:182-311 | For every text that can be received, the answer to it is read with code 200, and with the fields received if and only if they are recoverable. |
| SipDialog.AnswerIsSeen | target_board/app/linux/sip/src/sip_call.c:182-311 | The same holds with any earlier text left behind the answer in the buffer, which changes nothing in what is read. |
| SipDialog.AnswerConnects | target_board/app/linux/sip/src/sip_call.c:330-387 | A caller whose INVITE is answered in the form that Create200 prints is connected in that step, whatever its buffer held; it holds the fields of the answer if and only if they are recoverable, it acts by the poll, the answer, the opening of the file and an ACK, and that ACK is read as one with the fields it holds if and only if those are recoverable from it. |
| SipDialog.RunHoldsParsed | target_board/app/linux/sip/src/sip_call.c:330-457 | In every run, from the first answer acted on, the message held is one that was parsed. |
| SipDialog.ByeIsAnswered | target_board/app/linux/sip/src/sip_call.c:445-457 | In every run, every attempt to answer BYE closes the file and sends a text that is read as code 200, with the fields of the BYE if and only if they are recoverable; the call completes exactly when the send succeeds. |
| SipRuns.StepOutline | target_board/app/linux/sip/src/sip_call.c:313-559 | Every step of main_sip_call is one of thirteen kinds, each with the actions it adds to the log and the fields it may change. |
| SipRuns.RunInvariant | target_board/app/linux/sip/src/sip_call.c:313-559 | The invariant behind the following rows holds after every legal run under every environment. |
| SipRuns.RunMovesForward | target_board/app/linux/sip/src/sip_call.c:313-559 | The pair of states never moves backwards in a run: a phase of at most 8 never falls, and stays the same exactly while the control state does. |
| SipRuns.SocketsClosedOnce | target_board/app/linux/sip/src/sip_call.c:459-547 | The main machine leaves START only after the call has ended; both sockets are then closed, once, and no send or receive comes after a close. |
| SipRuns.FileIsFound | target_board/app/linux/sip/src/sip_call.c:369-457 | In a log with the order of calls that every run has, a call of fputc finds the output file open exactly when fopen succeeded, and a call of fclose exactly when, besides, it is the first one. |
| SipRuns.OutputFile | target_board/app/linux/sip/src/sip_call.c:369-457 | In every run, all calls of fputc find the output file open if and only if fopen succeeded or nothing is written, and all calls of fclose do if and only if fopen succeeded and there is one of them, or there is none; at the end of an accepted call there was one plus one for every failed send of the answer, so one if and only if none failed. |
| SipExample.CallWithoutFile | target_board/app/linux/sip/src/sip_call.c:373-448 | A call in which fopen of the output file fails, and the program still passes a packet to fputc and calls fclose with no file open. |
| SipRuns.ReturnCode | target_board/app/linux/sip/src/sip_call.c:342-528 | At END the call was accepted or refused, once; the return code is 2 exactly when it was refused, 0 exactly when it was accepted with a file of more than 54 bytes, and 1 exactly when it was accepted with a shorter one. In numbers: it is 2 exactly when some answer had a code other than 100, 180, 200 and 401. |
| SipReactions.AnswerByCode | target_board/app/linux/sip/src/sip_call.c:330-397 | For every received text, with the numbers written out: codes 100 and 180 change nothing but the text held and its reading; 401 makes an INVITE with the next number and the credentials of the challenge; 200 opens the file, is acknowledged and connects; every other code is acknowledged and ends the call with return code 2. |
| SipReactions.StatusDecides | target_board/app/linux/sip/src/sip_call.c:330-397 | The same from the received characters: which state, return code, sequence number and messages follow from a status line with the number n, for every n of three digits. |
| SipReactions.NoSipRefuses | target_board/app/linux/sip/src/sip_call.c:253-260 | A received text without the word SIP ends the pending call as refused. |
| SipReactions.CommandDecides | target_board/app/linux/sip/src/sip_call.c:434-443 | In the established call, a received request leads to the answer to BYE exactly when its first word is BYE. |
| SipReactions.ChallengeIsParsed | target_board/app/linux/sip/src/sip_call.c:302-303 | The challenge that the parser takes from a 401 is the value of its WWW-Authenticate header if and only if no earlier value misleads the search. |
| SipReactions.ChallengeIsAnswered | target_board/app/linux/sip/src/sip_call.c:330-357 | From the received text to the sent one: a 401 whose WWW-Authenticate value holds realm="r" and nonce="n" makes the program send, in that step, an INVITE with the next number and the credentials for r and n, which the server reads as such. |
| SipReactions.RunAnswersChallenge | target_board/app/linux/sip/src/sip_call.c:330-357 | In every run, a step that receives such a challenge sends an INVITE with the credentials for it, under the first number of the call plus the number of challenges so far. |
| SipReactions.MainDecides | target_board/app/linux/sip/src/sip_call.c:474-556 | The four states of the main program and what leads from each to the next. |
| SipReactions.StartDecides | target_board/app/linux/sip/src/sip_call.c:317-328 | The first INVITE has the present number and credentials, and the call waits for an answer exactly when it was sent. |
| SipReactions.BufferAfterSend | target_board/app/linux/sip/src/sip_call.c:319-457 | After an INVITE the buffer holds its text, a zero and what it held there before; after an ACK or the answer to BYE it holds the text and zeros only. |
| SipReactions.PacketDecides | target_board/app/linux/sip/src/sip_call.c:402-431 | A packet is answered behind its own 12 bytes of header with the next 160 bytes of the file or the rest and zeros, until the file is at its end, and is then recorded from byte 12 to 171. |
| SipRuns.SequenceNumbers | target_board/app/linux/sip/src/sip_call.c:350-357 | CSeq is its first value plus the number of 401 answers, and the INVITEs that were sent were sent under strictly increasing numbers. |
| SipInvites.CredentialsHaveNoReturn | target_board/app/linux/sip/src/sip_call.c:132-152 | The credentials for a challenge with no carriage return but at its end are one line. |
| SipInvites.RunSpeaks | target_board/app/linux/sip/src/sip_call.c:317-357 | In every run, every INVITE is one with the number it was sent under: before any answer with the credentials the call started with, and after that each directly behind a 401 and with the credentials that RFC 2617 gives for the realm and the nonce of that very challenge. |
| SipInvites.SentInvites | target_board/app/linux/sip/src/sip_call.c:317-357 | In every run, the CSeq line of every INVITE reads back to its number and its thirteenth line is the credentials due for the challenge it follows; its Content-Length is right if and only if it has credentials, and the numbers read in the INVITEs whose sending succeeded strictly increase (section 22.2 of RFC 3261). |
| SipRuns.FileIsKept | target_board/app/linux/sip/src/sip_call.c:500-522 | The buffer keeps the content read at the first step, with the end-of-file mark as a byte behind it. |
| SipRuns.FileIsPlayed | target_board/app/linux/sip/src/sip_call.c:400-421 | The payloads sent are whole pieces of the file from its second byte on while it is being sent; when sending ends they are all of it, the mark, and zeros up to a whole packet, in exactly ceil(size / 160) packets. Before that nothing is recorded. |
| SipRuns.RecordingIsHeard | target_board/app/linux/sip/src/sip_call.c:423-431 | In every run what is passed to fputc is the concatenation of the 160-byte windows that arrived while the call was established and after sending had ended. |
| SipExample.CallEnds | target_board/app/linux/sip/src/sip_call.c:313-649 | A call that runs to its end with return code 0, whether the output file can be opened or not: the file is played in one packet, a packet is passed to fputc, a misleading BYE comes, its answer fails to be sent once, so that fclose is called twice, and is read with another From. |
| SipRuns.FullPacketIsHeard | target_board/app/linux/sip/src/sip_call.c:423-431 | A packet of at least 172 bytes delivers its own payload, whatever was in the buffer. |
| SipPhone.Phone.constructor | target_board/app/linux/sip/src/sip_call.c:561-575 | A fresh phone is in an initial state in the sense of the runs. |
| SipPhone.Phone.GetField | target_board/app/linux/sip/src/sip_call.c:207-228 | SIP_field is the text the search yields, or empty. |
| SipPhone.Phone.GetParam | target_board/app/linux/sip/src/sip_call.c:230-251 | SIP_field is the text between the next two quotation marks, or empty. |
| SipPhone.Phone.SipParser | target_board/app/linux/sip/src/sip_call.c:253-311 | The shared message is what parsing the text means, all thirteen fields, for every text whose searches end and whose parts fit the buffers of 20 and 255 bytes. |
| SipPhone.Phone.Create200 | target_board/app/linux/sip/src/sip_call.c:182-205 | The print buffer holds the text of the answer to the shared message, built line by line. |
| SipPhone.Phone.CreateAck | target_board/app/linux/sip/src/sip_call.c:155-180 | The print buffer holds the text of the ACK. |
| SipPhone.Phone.CreateInvite | target_board/app/linux/sip/src/sip_call.c:66-130 | The print buffer holds the INVITE with the session description that was printed first. |
| SipPhone.Phone.CreateAuthString | target_board/app/linux/sip/src/sip_call.c:132-152 | The credentials are printed with the RFC 2617 response that the digest calls compute, where they and the URI fit their buffers. |
| SipPhone.Phone.SendInviteText | target_board/app/linux/sip/src/sip_call.c:319-320 | The INVITE is in the send buffer over its old contents, and in the log. |
| SipPhone.Phone.SendAckText | target_board/app/linux/sip/src/sip_call.c:388-390 | The cleared buffer holds the ACK, which is in the log. |
| SipPhone.Phone.TakeChallenge | target_board/app/linux/sip/src/sip_call.c:352-355 | CSeq, realm, nonce and credentials are those of the challenge; nothing else changes. |
| SipPhone.Phone.HandleAnswer | target_board/app/linux/sip/src/sip_call.c:342-396 | The reaction to every code: 100 and 180 none, 401 a new INVITE, 200 the established state, anything else an ACK and return code 2. |
| SipPhone.Phone.ParseReceived | target_board/app/linux/sip/src/sip_call.c:339-340 | The received data lie over the buffer, whose remainder stays, and the C string in it is parsed. |
| SipPhone.Phone.AwaitAnswer | target_board/app/linux/sip/src/sip_call.c:330-398 | The whole step in the state after the INVITE. |
| SipPhone.Phone.FillPacket | target_board/app/linux/sip/src/sip_call.c:407-415 | Behind the 12 header bytes kept, the packet has the next bytes of the file and zeros; the position moves on by the number of bytes copied, at most 160 and not past the file. |
| SipPhone.Phone.SendChunk | target_board/app/linux/sip/src/sip_call.c:405-421 | The packet sent and the position and end mark after it are those of the model. |
| SipPhone.Phone.RecordWindow | target_board/app/linux/sip/src/sip_call.c:423-431 | The bytes written are the 160 bytes behind the header, one by one, and the position is clobbered by the last. |
| SipPhone.Phone.ExchangeVoice | target_board/app/linux/sip/src/sip_call.c:402-431 | The RTP half of the established step. |
| SipPhone.Phone.ConverseWithServer | target_board/app/linux/sip/src/sip_call.c:400-443 | The whole step in the established state. |
| SipPhone.Phone.PartFromServer | target_board/app/linux/sip/src/sip_call.c:445-457 | The whole step that answers BYE. |
| SipPhone.Phone.VyzovSip | target_board/app/linux/sip/src/sip_call.c:313-467 | The new state is that of the session step, for every state and environment. |
| SipPhone.Phone.LoadFile | target_board/app/linux/sip/src/sip_call.c:477-534 | The loop that reads until fgetc reports the end stores the content and the mark 0xFF; a file of at most 54 bytes sets return code 1. |
| SipPhone.Phone.MainSipCall | target_board/app/linux/sip/src/sip_call.c:469-559 | The new state is that of one step of the model, and the result is true exactly in the state END, where nothing changes. |
| SipPhone.Phone.PlaceCall | target_board/app/linux/sip/src/sip_call.c:561-649 | Every execution of the calling loop is a run of the model from a restarted state, so that the results on runs hold of the object; when it stops, the state is END and the result is the return code. CSeq goes on from where the call before left it, plus one for every 401, and the credentials go on too. |

## Left out

- Md5.Context.Update: requires that 63 more than the length of one input is below 2^32, because the index of the block loop is a 32-bit number to which 63 is added.
- Md5.DigestOfPieces: the same bound for every piece; the number of pieces is unbounded.
- SipRuns.SequenceNumbers: CSeq is an unbounded number; a signed overflow after 2^31 challenges is not modelled.
- VoicePath.Driver.TimerTick: the fetched bytes are discarded by the code; the model records them as taken.
- SipPhone.Phone.LoadFile: the file has been opened; the code tries six times, notes return code 1 when it fails, and then seeks on a null pointer, so that nothing is defined after it.
- SipPhone.Phone.PlaceCall: the set-up of addresses and sockets before the loop is not modelled, and the loop ends when the environment given to it does.
- SipRequests.AckRoundTrip: the number to call and the server address are taken to have no carriage return.
- SipInvites.SentInvites: the same for all arguments of the call that are printed, and for credentials left by an earlier call.
- SipReactions.StatusDecides: numbers of three digits, as SIP has them; what other texts do is told by `SipReactions.AnswerByCode` on the code that is parsed.
- SipReactions.ChallengeIsAnswered: the first line of the 401 does not hold the name WWW-Authenticate.
- SipServer.InviteRoundTrip: the arguments of the call are taken to have no carriage return.
- SipCall.ReceivedFields: a received message that does not end in a line feed can form a name together with the text behind it, and is not covered.
- Sockets, files, `sleep`, `random` and printing: they are inputs of a step and actions in its log.
- The kernel's kfifo: a byte queue of capacity 8192 with its documented put and get.
- Netfilter hooks, Ethernet transmission, McASP and codec-chip set-up, DMA allocation, module entry and exit: calls into a kernel that is not part of this model.
- The tables between u-law and A-law (unused), the test driver, the test application and the userspace driver.
- The derivation of the MD5 constants from sines, and any claim about collisions or secrecy.
- Liveness: no result says that a call ends, since the network may stay silent.
