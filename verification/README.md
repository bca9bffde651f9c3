# A verified model of the Huawei RIL protocol stack and the camera capture

This project models two parts of an Android port for a tablet with a Huawei modem, and proves what
they promise.

The larger part is the radio interface layer in `huawei-generic/`:

- the AT channel: the streaming line splitter over a fixed buffer, the tokenizer that cuts lines in
  place, what happens to every line while a command is pending, and the protocol of any number of
  command threads and one reader over two mutexes and two condition variables;
- the SMS codecs: CDMA messages packed bit by bit into hex digits, GSM septets, addresses, SUBMIT
  and DELIVER PDUs, long messages in parts, and the bridge from GSM to CDMA;
- the hex TLV parser and the FCP reader on top of it.

The smaller part is the camera in `libcamera/`: the choice of a capture mode, cropping, and the state
machine that keeps capture size, heaps and preview thread in agreement.

Code that works in place is a method over arrays or class fields, proved against a definition on
values; the properties are lemmas about those definitions. The threads of the AT channel are actions
over a shared state (`AtChannel`), with one invariant (`AtSafety`) from which the statements about
whole runs follow (`AtRuns`, `AtAccounts`, `AtEndings`, `AtRetries`, `AtProgress`); what the reader does
in place refines its action (`AtRefinement`). System calls are parameters: lists of what read, poll and
write answer, a predicate for the heap, a record for the camera driver. What is sent is pinned by readers
written from the standards, and what is received by printing it first (`CdmaReceive`, `LinePrinting`,
`SmsReassembly`).

Where the code does not do what its documentation or its callers expect, the model follows the code
and says exactly when the expected property holds:

- framing depends on the sizes of reads when a line goes on after "> " (`LineFraming.FramingIff`);
- a text with extension characters is not read back, and is cut wrongly into parts
  (`GsmDecode.TextSurvivesIff`, `SmsSegments.SegmentsConserveIff`);
- an empty last field of an AT line is lost (`AtTokens.TokensInvertJoinIff`);
- a formatted command is cut to its buffer, and may go out with the text of another thread
  (`AtRuns.OwnCommand`, `AtRuns.OwnCommandIff`);
- a number from the modem can make an error look like a success, a closed channel or a timeout
  (`AtErrors.ZeroErrorIff`, `AtEndings.CodesTell`), and the codes for no carrier, no answer and no dial
  tone are never used (`AtErrors.CarrierUntold`);
- the data coding scheme of a short message is read as one of a cell broadcast
  (`SmsSubmit.MessageCodingIff`), its validity period as user data (`Bridge.SubmitRead`), one letter of the
  alphabet is another (`GsmText.AlphabetIff`), and DELIVER PDUs in UCS2 do not carry their text
  (`SmsReassembly.Ucs2ArrivesIff`);
- a running preview captures what the heaps were made for exactly under a condition on the state
  before each call: a started one with a memory allocator, or if the heaps happened to fit
  (`Cameras.CameraHardware.StartPreview`); after a change, as `Cameras.Agrees` says. With an allocator
  it always does (`Cameras.ServeAll`); `Cameras.StaleSize` is a run in which it does not;
- a call can wait forever for the modem, exactly when its command has no time limit and no final
  response comes, or the reader has gone without closing the channel (`AtProgress.GoesOnIff`,
  `AtProgress.NoDeadlock`); nothing else holds a call up for good (`AtProgress.ComesToRest`);
- a token can be read past the end of its line (`AtTokens.OverrunIff`), and digits are printed without a
  terminator (`SmsSubmit.DigitsLeftOver`);
- an FCP template is read past its end (`Fcp.InsideIff`).

Run `dafny verify dfyconfig.toml` to check everything.

## Model

| member | source | states |
|---|---|---|
| CdmaBits.ReadBits | huawei-generic/sms.c:42-49 | reads exactly the value of the bit field in a string of hex digits |
| CdmaBits.SetBit | huawei-generic/sms.c:35-40 | ORs one bit into a digit: a bit that was 0 becomes the value, every other bit stays, and the digit stays an upper case hex digit |
| CdmaBits.SetBits | huawei-generic/sms.c:51-56 | on a field of zeros, writes the value modulo 2^n; every field that does not overlap keeps its value |
| CdmaBits.WrittenField | huawei-generic/sms.c:42-56 | a field reads back as what was written into it, from any all-zero start |
| CdmaBits.ByteBits | huawei-generic/sms.c:89-92 | the byte read from two digits is the value of their eight bits |
| CdmaSms.EncodeDigit | huawei-generic/sms.c:70-76 | the smallest index of the character in the digit table, 0 if it is not there |
| CdmaSms.DigitsAre | huawei-generic/sms.c:58-76 | the code of a decimal digit is its value, with 10 for '0', 11 for '*' and 12 for '#'; each of these characters has its own code |
| CdmaSms.EncodeNumber | huawei-generic/sms.c:78-87 | the ten header bits and four bits for each digit, and nothing outside the returned length |
| CdmaSms.EncodeBearerData | huawei-generic/sms.c:134-162 | message id, user data with its length, priority and display mode follow each other, and the returned length is theirs |
| CdmaSms.EncodeCdmaSms | huawei-generic/sms.c:183-205 | the buffer holds a complete message for every number and text that fit, all of it upper case hex, then the terminator |
| CdmaDecode.DecodeNumber | huawei-generic/sms.c:60-68 | the digits that the count announces, or none when they run past the end |
| CdmaDecode.DecodeBearerData | huawei-generic/sms.c:94-132 | the walk over the subparameters equals its definition by recursion: texts of all encodings are appended, the voice mail flag is taken from the message count |
| CdmaDecode.DecodeCdmaSms | huawei-generic/sms.c:164-181 | the walk over the parameters equals its definition, with the defaults and with the byte at which it stops |
| CdmaReceive.MessageReads | huawei-generic/sms.c:164-181 | a message with any list of parameters, as a network sends it, is decoded as what they say: the last originating address is the sender, the texts of the last bearer data with a text are the message, and message counts set the voice mail flags |
| CdmaReceive.OriginRead | huawei-generic/sms.c:60-68 | an originating address is the sender, and the walk goes on behind it |
| CdmaReceive.BearerReads | huawei-generic/sms.c:94-132 | bearer data with any list of subparameters is read to its last byte as what they add |
| CdmaReceive.TextAdds | huawei-generic/sms.c:100-113 | a text in 7, 8 or 16 bit characters is appended, 16 bit ones by their low byte |
| CdmaReceive.BadTextAdds | huawei-generic/sms.c:114-118 | a text in another encoding is replaced by a report of it |
| CdmaReceive.CountSets | huawei-generic/sms.c:120-128 | a message count sets the voice mail flags, for waiting messages or for none |
| CdmaReceive.DeliveredReads | huawei-generic/sms.c:94-181 | so number and text of a delivered message come out, in each encoding |
| CdmaRoundTrip.RoundTrip | huawei-generic/sms.c:94-205 | decoding an encoded message gives the kept text, no voice mail and the untouched sender "000000", and the outer walk ends exactly at the last byte; the number is read back from the destination parameter |
| CdmaRoundTrip.BearerKept | huawei-generic/sms.c:94-162 | the inner walk over encoded bearer data ends exactly at its last byte, with the text and no voice mail |
| CdmaRoundTrip.RoundTripIff | huawei-generic/sms.c:94-205 | text and number come back unchanged exactly when the text has at most 255 characters below 128 and the number at most 255 characters of the digit table |
| CdmaRoundTrip.NumberSurvivesIff | huawei-generic/sms.c:58-87 | a number survives exactly with at most 255 characters of the digit table |
| CdmaRoundTrip.TextSurvivesIff | huawei-generic/sms.c:103-105 | a text survives exactly with at most 255 characters below 128 |
| Septets.PackBits | huawei-generic/gsm.c:751-791 | packing any septets from any bit offset uses exactly the rounded-up number of bytes, keeps the bits below the offset, and puts bit i of septet k at its place |
| Septets.SeptetRead | huawei-generic/gsm.c:604-609 | the two-byte shift of the reader finds the septet at any bit position |
| Septets.UnpackReads | huawei-generic/gsm.c:594-632 | reading packed septets gives the list, without a read beyond the bytes |
| Septets.PackInverts | huawei-generic/gsm.c:594-827 | unpacking what was packed gives the list, for every list, offset and first byte |
| GsmText.UnicharToGsm7 | huawei-generic/gsm.c:535-545 | the first index of the character in the table, or none when no entry is the character |
| GsmText.UnicharToGsm7Extend | huawei-generic/gsm.c:547-558 | the same in the extension table |
| GsmText.AlphabetIff | huawei-generic/gsm.c:512-521 | the table is the alphabet of section 6.2.1 of 3GPP TS 23.038, exactly but for 0x5d: N with caron in place of N with tilde |
| GsmText.ExtensionIs | huawei-generic/gsm.c:523-533 | the extension table is that of section 6.2.1.1, spelled out |
| GsmText.SeptetsAre | huawei-generic/gsm.c:535-545 | ASCII text whose septets by the standard are given becomes these septets, and is base alphabet text |
| GsmText.Utf8ToGsm7Count | huawei-generic/gsm.c:722-742 | the number of septets of the text, with a space for what has none |
| GsmText.Utf8CheckGsm7 | huawei-generic/gsm.c:578-590 | true exactly when every character is in one of the tables |
| GsmText.BWriter.constructor | huawei-generic/gsm.c:751-764 | the writer starts at the byte of the offset and keeps the bits below it |
| GsmText.BWriter.Add7 | huawei-generic/gsm.c:766-778 | one septet more: what has been stored and what is still in the pad are one step of packing |
| GsmText.BWriter.Done | huawei-generic/gsm.c:780-790 | the rest of the pad is stored, and no byte behind it |
| GsmText.Utf8ToGsm7 | huawei-generic/gsm.c:792-827 | the septets of the text are packed from the bit offset; exactly the bytes they need are written, the bits below the offset and all other bytes stay |
| GsmDecode.Utf8FromGsm7 | huawei-generic/gsm.c:593-632 | counting and writing agree: the text of the septets, or a report that they run past the bytes |
| GsmDecode.PackedTextReads | huawei-generic/gsm.c:593-632 | the text of packed septets is the text of the septets |
| GsmDecode.CharacterReads | huawei-generic/gsm.c:382-412 | a reader written from RFC 3629 finds the character that was written, in the fewest bytes |
| GsmDecode.SeptetsSay | huawei-generic/gsm.c:593-632 | the text of septets without escape is, read as UTF-8, their characters in the alphabet of the standard, with the one exception |
| GsmDecode.TextRoundTrip | huawei-generic/gsm.c:594-827 | decoding encoded base alphabet text gives the text, at any bit offset |
| GsmDecode.TextSurvivesIff | huawei-generic/gsm.c:594-632 | text comes back unchanged exactly when it is base alphabet with at most one extension character, at the very end, since the escape is never cleared |
| GsmDecode.MissingIff | huawei-generic/gsm.c:578-742 | the ASCII characters without septets, spelled out, and that exactly these are sent as spaces |
| GsmDecode.BracketLost | huawei-generic/gsm.c:613-620 | such a text: a bracket and a letter |
| Ropes.Rope.Init | huawei-generic/gsm.c:194-201 | a rope without data at position 0 |
| Ropes.Rope.InitAlloc | huawei-generic/gsm.c:203-220 | zeroed bytes of the size asked for, the inline ones for 0, an error when there is no memory |
| Ropes.Rope.Ensure | huawei-generic/gsm.c:254-277 | room for the count, with what a heap block held; the inline bytes are not copied, and a rope without data only notes the size |
| Ropes.Rope.CanGrow | huawei-generic/gsm.c:279-295 | room for the count or a failed allocation; a rope with room is not moved |
| Ropes.Rope.Add | huawei-generic/gsm.c:306-313 | the position advances whatever happens; with zeroed room exactly the bytes are stored and nothing is reallocated |
| Ropes.Rope.AddC | huawei-generic/gsm.c:297-304 | the same for one byte |
| Ropes.Rope.Reserve | huawei-generic/gsm.c:315-328 | the position advances; the place of the reserved bytes when there are any |
| SmsAddresses.SmsAddress.FromStr | huawei-generic/sms_gsm.c:188-234 | succeeds exactly on an optional '+' and 1 to 32 digits, and then the record encodes that number, odd counts filled with 0xF |
| SmsAddresses.TypeOfAddress | huawei-generic/sms_gsm.c:188-234 | the type of an encoded number is international exactly with a '+', else unknown, in the telephone numbering plan (section 9.1.2.5 of 3GPP TS 23.040) |
| SmsAddresses.SmsAddress.Print | huawei-generic/sms_gsm.c:170-185 | prints the number that the record holds |
| SmsAddresses.SmsAddress.Get | huawei-generic/sms_gsm.c:439-480 | record, cursor and result in all five exits, including what a failing one leaves behind |
| SmsAddresses.AddAddress | huawei-generic/sms_gsm.c:327-337 | appends the address field, the filler forced into an odd number |
| SmsAddresses.AddressRoundTrip | huawei-generic/sms_gsm.c:170-234 | a number that became an address, a PDU field, an address and a number again is the same, and the cursor lands just behind the field |
| SmsDeliver.AddUserHeader | huawei-generic/sms_gsm.c:833-845 | appends the header of a part: reference, count and index from 1 |
| SmsDeliver.AddSeptets | huawei-generic/sms_gsm.c:899-904 | the text encoder fills precisely the bytes reserved for it |
| SmsDeliver.AddDeliverPdu | huawei-generic/sms_gsm.c:848-925 | the measuring and the writing pass advance by the same bytes; with that much zeroed room the second one never reallocates and writes exactly them |
| SmsDeliver.CreateDeliver | huawei-generic/sms_gsm.c:928-970 | the PDU, or a failure exactly when its record or its bytes cannot be allocated |
| SmsSegments.Utf8Skip | huawei-generic/gsm.c:330-352 | on ASCII, `count` characters on, but up to one past the end |
| SmsSegments.Plan | huawei-generic/sms_gsm.c:1010-1023 | the number of PDUs and the share of each |
| SmsSegments.FewestPdus | huawei-generic/sms_gsm.c:1010-1023 | as few PDUs as carry 154 septets or 134 characters each |
| SmsSegments.DeliverBuilder.CreatePart | huawei-generic/sms_gsm.c:1035-1050 | one PDU holds the characters between two cuts |
| SmsSegments.DeliverBuilder.CreateDeliverUtf8 | huawei-generic/sms_gsm.c:987-1061 | the list holds one PDU for each part, all with the same reference, which advances only when all of them were built |
| SmsSegments.JoinedIsPrefix | huawei-generic/sms_gsm.c:1035-1050 | the parts one after the other are the text up to the last cut |
| SmsSegments.SegmentsConserve | huawei-generic/sms_gsm.c:987-1061 | the parts together are the text, or the text and the byte behind it when it has extension characters |
| SmsSegments.SegmentsConserveIff | huawei-generic/sms_gsm.c:987-1061 | exactly the text is carried, if and only if it has no extension character or does not fit the septet alphabet at all |
| SmsSegments.BracketOverrun | huawei-generic/gsm.c:330-352 | such a text: the PDU for a single bracket also carries the byte behind it |
| SmsReassembly.DeliverParses | huawei-generic/sms_gsm.c:848-925 | a parser written from section 9.2.2.1 of 3GPP TS 23.040 finds in a built PDU what it was built from, the septets behind the fill bit of the header included |
| SmsReassembly.Ucs2DeliverParses | huawei-generic/sms_gsm.c:848-925 | the same parser on a PDU in UCS2: all fields come back but the text, which is shifted by the length byte that is written twice |
| SmsReassembly.Ucs2ArrivesIff | huawei-generic/sms_gsm.c:907-923 | so text in UCS2 arrives exactly when there is none |
| SmsReassembly.MessageReassembles | huawei-generic/sms_gsm.c:987-1061 | for base alphabet text: ceil(n/154) PDUs, the same reference and count, indices 1 to count, and the septets of all of them are those of the text |
| Hex.GsmHexToBytes | huawei-generic/gsm.c:168-179 | the bytes of the digits, a last odd digit as a high half |
| Hex.HexByteAt | huawei-generic/gsm.c:139-146 | each byte is made of its two digits, other characters counting as 0 |
| Hex.HexReads | huawei-generic/gsm.c:95-178 | any hex digits of some bytes, in upper or lower case and mixed, are read as the bytes |
| Hex.HexRoundTrip | huawei-generic/gsm.c:148-189 | bytes printed in hex are read back |
| SmsSubmit.SmsPduToHex | huawei-generic/sms_gsm.c:1098-1111 | the digits of all whole bytes that start below the limit, and no others |
| SmsSubmit.HexWrittenIff | huawei-generic/sms_gsm.c:1098-1111 | both digits of a byte are written exactly if the first of them is below the limit |
| SmsSubmit.DigitsLeftOver | huawei-generic/sms_gsm.c:1098-1111 | no terminator is written: the string in the buffer is the digits and what was there behind them, and the digits alone exactly when that was empty |
| SmsSubmit.CreateFromHex | huawei-generic/sms_gsm.c:1064-1096 | the PDU behind its service centre address, or none when that does not fit or memory is short |
| SmsSubmit.ReceiverAddress | huawei-generic/sms_gsm.c:607-623 | the receiver of a SUBMIT PDU, an error for any other type, and what is left in the record |
| SmsSubmit.Ucs2ToUtf8 | huawei-generic/gsm.c:467-481 | counting and writing agree on the text of UCS2 characters |
| SmsSubmit.Ucs2Says | huawei-generic/gsm.c:468-485 | the text of any UCS2 characters, read as UTF-8, is these characters |
| SmsSubmit.CodingIs | huawei-generic/sms_gsm.c:635-668 | for every data coding scheme, the coding is that of section 5 of 3GPP TS 23.038, given by ranges |
| SmsSubmit.MessageCodingIff | huawei-generic/sms_gsm.c:628-668 | it is that of section 4, which is about short messages, exactly for the schemes listed; 8, plain UCS2, is read as septets |
| SmsSubmit.GetTextUtf8 | huawei-generic/sms_gsm.c:671-748 | on an empty rope, the text of the user data is all of its contents |
| SmsSubmit.GetTextMessage | huawei-generic/sms_gsm.c:794-826 | the text of a SUBMIT PDU, or none in each of its error exits |
| Bridge.PlusToZeros | huawei-generic/sms.c:264-268 | the number with "00" for a leading '+', moved in place |
| Bridge.GsmToCdmaPdu | huawei-generic/sms.c:251-275 | the static buffer holds the CDMA message with the number and text of the PDU; it stops only where one of them is missing or does not fit, or memory is short |
| Bridge.SubmitRead | huawei-generic/sms_gsm.c:607-668 | number, coding and user data of a SUBMIT PDU are found behind any service centre address; a validity period is not skipped but read as the start of the user data |
| Bridge.BridgePreserves | huawei-generic/sms.c:251-275 | meaning is preserved: in every data coding scheme of septets (a range of the scheme byte), base alphabet text of at most 160 characters without validity period arrives as it was, and the number with '+' as "00" |
| Bridge.BridgeDefault | huawei-generic/sms.c:251-275 | the same in terms of the standards alone, for the default scheme: from decimal digits, a type of address and the septets of the alphabet of 3GPP TS 23.038 to these digits, behind "00" if international, and the text |
| Bridge.ValidityEmpties | huawei-generic/sms_gsm.c:793-812 | with a relative validity period of 0 the text that is converted is empty, whatever the message says |
| Bridge.Relay | huawei-generic/sms.c:164-275 | gsm_to_cdmapdu and the decoder one after the other: with memory the text arrives and the number is the one dialled |
| Bridge.BridgePreservesUcs2 | huawei-generic/sms.c:251-275 | the same for 7-bit text in the schemes of UCS2 |
| Bridge.BridgeIff | huawei-generic/sms.c:251-275 | for any text that is read: it arrives unchanged exactly when it is 7-bit without NUL, and the number exactly when all its nibbles are decimal digits |
| LineReaders.Reader.SkipNewlines | huawei-generic/atchannel.c:476-477 | the cursor goes to the first character that is no line end |
| LineReaders.Reader.FindNextEol | huawei-generic/atchannel.c:428-439 | the line end, or the end of a prompt, or none |
| LineReaders.Reader.MoveUp | huawei-generic/atchannel.c:481-490 | a partial line moves to the start of the buffer unchanged |
| LineReaders.Reader.Receive | huawei-generic/atchannel.c:547-561 | the bytes read follow the partial line, inside the buffer, with two terminators behind them |
| LineReaders.Reader.Ditch | huawei-generic/atchannel.c:502-508 | a full buffer is thrown away, and there is always room for the next read |
| LineReaders.Reader.Turn | huawei-generic/atchannel.c:495-578 | one turn of the loop, for every answer of poll and read |
| LineReaders.Reader.ReadNext | huawei-generic/atchannel.c:452-593 | whatever comes in, the cursor stays inside the buffer on characters that a NUL ends or on a NUL, and no empty line is returned; without NULs in the stream the call is its definition on strings |
| LineFraming.ReadFrames | huawei-generic/atchannel.c:452-593 | a call takes the first line of what is unread, unless the buffer overflowed |
| LineFraming.FramingIndependent | huawei-generic/atchannel.c:452-593 | however the stream is cut, the lines returned and those still unread are the lines of the stream, in order |
| LineFraming.NothingLeft | huawei-generic/atchannel.c:452-593 | a run that consumed the stream has returned all its lines |
| LineFraming.NoOverflow | huawei-generic/atchannel.c:502-508 | if each line with the line ends before it stays below the buffer size, nothing is ever thrown away |
| LineFraming.BytewiseDiffers | huawei-generic/atchannel.c:430-433 | a stream with a line that goes on after "> " is framed differently when it comes byte by byte |
| LineFraming.FramingIff | huawei-generic/atchannel.c:428-593 | for streams whose lines fit the buffer, the strings framed are independent of the read sizes exactly when no line properly begins with "> "; they are what readline returns when the stream holds no NUL |
| LinePrinting.LinesRead | huawei-generic/atchannel.c:428-439 | the lines of a printed stream, with line ends of any kind and number between them and a prompt at the end or none, are those that were printed; they are unambiguous exactly when none goes on after "> " |
| LinePrinting.PrintedDelivered | huawei-generic/atchannel.c:452-593 | so readline returns exactly the lines that were sent, however the stream is cut, if each fits the buffer and none goes on after "> " |
| LineFraming.EndOfReading | huawei-generic/atchannel.c:452-593 | no line is returned only at a failure of poll or read, at the end of the stream, or when nothing happens any more; a call goes on after no failure |
| AtTokens.Start | huawei-generic/at_tok.c:28-44 | the cursor goes behind the first colon, or there is none |
| AtTokens.SkipWhiteSpace | huawei-generic/at_tok.c:46-53 | the cursor goes to the first character that is not a space |
| AtTokens.SkipNextComma | huawei-generic/at_tok.c:55-65 | the cursor goes behind the next comma or to the end |
| AtTokens.FindQuote | huawei-generic/at_tok.c:81-124 | the closing quote that no backslash escapes, the end of the line when there is none, or a report that the source steps over that end |
| AtTokens.NextTok | huawei-generic/at_tok.c:72-131 | the token and the rest are strings in the line, the cursor strictly behind the token, and nothing before the old cursor has changed; without a closing quote the line is as it was and the cursor at its end; nothing when the source steps over the end of the line |
| AtTokens.ReadTokens | huawei-generic/at_tok.c:215-231 | all tokens, and every one of them is still readable in the line at the end; or a report that the source steps over that end |
| AtTokens.OverrunIff | huawei-generic/at_tok.c:81-124 | it steps over the end exactly when the token starts with a quote that nothing closes and the line ends in an odd run of backslashes |
| AtTokens.BackslashOverruns | huawei-generic/at_tok.c:81-124 | such a line: a quote, a letter and a backslash |
| AtTokens.TokensInvertJoin | huawei-generic/at_tok.c:72-131 | the tokens of printed fields, with any spaces before each one and anything but a comma behind a closing quote, are the fields, except an empty last one |
| AtTokens.TokensInvertJoinIff | huawei-generic/at_tok.c:215-231 | all such fields come back exactly when the last one is not printed as nothing |
| AtTokens.ReadResponse | huawei-generic/at_tok.c:28-131 | behind a prefix and its colon the tokens of a printed response, with spaces or without, are its fields, each readable in the line |
| AtTokens.EmptyLastLost | huawei-generic/at_tok.c:215-231 | such fields: a 1 and an empty one come back as one |
| AtTokens.SpacesBefore | huawei-generic/at_tok.c:46-53 | any spaces, tabs, line ends and form feeds before a token do not matter |
| AtTokens.StrtolReads | huawei-generic/at_tok.c:139-172 | a printed number of any size, behind spaces and with a sign, is read up to what is no digit, and clamped to 32 bits |
| AtTokens.NextIntReads | huawei-generic/at_tok.c:139-180 | the next integer of a line that prints it, behind spaces |
| AtLines.StrStartsWith | huawei-generic/misc.c:24-31 | true exactly for a prefix |
| AtLines.FindPrefix | huawei-generic/atchannel.c:285-340 | true exactly when a prefix of the table fits |
| AtLines.LinesConserved | huawei-generic/atchannel.c:362-419 | the lines of a window are, each once, the final responses, of which the last is kept, the prompt that the text was sent for, the intermediate responses that the response holds, and those for the unsolicited handler |
| AtLines.HoldsWhatWent | huawei-generic/atchannel.c:362-419 | what a response holds is what went to it: all intermediate lines in order, the last final one and its success, and at most one prompt, exactly when the text was used up |
| AtLines.LastFinal | huawei-generic/atchannel.c:344-375 | the last final response of the window decides, and success with it |
| AtLines.Prompted | huawei-generic/atchannel.c:376-380 | the text is used up by the first prompt and by no other |
| AtLines.IntermediatesAre | huawei-generic/atchannel.c:381-416 | all matches in arrival order for a multi-line command, at most the first match for the others |
| AtLines.FinalIff | huawei-generic/atchannel.c:276-317 | the final responses, spelled out |
| AtLines.LinesHeld | huawei-generic/atchannel.c:381-416 | what a response holds, by the type of the command and the text of the lines alone: nothing, the first line that starts with a digit, the first with the prefix, or all with the prefix; never a final response or the prompt that was used |
| AtLines.OtherAnswerIsUnsolicited | huawei-generic/atchannel.c:394-402 | so an answer to another command goes to the unsolicited handler and the own one is held |
| AtErrors.AtGetError | huawei-generic/atchannel.c:772-813 | the code for a missing response, a success, a missing final response, and a final response, which the tokenizer cuts behind its first colon; or a report that the source steps over the end of the line |
| AtErrors.ZeroErrorIff | huawei-generic/atchannel.c:756-813 | a failed command gets code 0 exactly for the number that cancels the base of its error class |
| AtErrors.NoZeroByWrapping | huawei-generic/atchannel.c:756-770 | the sum of base and number may wrap, but does not become 0 by that |
| AtErrors.ErrorIsZero | huawei-generic/atchannel.c:756-813 | such a final response: "+CME ERROR: -1000" |
| AtErrors.SmallCodeIff | huawei-generic/atchannel.c:772-813 | a code below those of final responses comes exactly from a number that makes it |
| AtErrors.NumberedError | huawei-generic/atchannel.c:799-802 | the code of a numbered error is 1000 or 2000 more than its number, for every number of an int |
| AtErrors.NamedError | huawei-generic/atchannel.c:803-810 | the codes of the errors that the source names |
| AtErrors.CarrierUntold | huawei-generic/atchannel.c:276-283 | but no final response gets those for no carrier, no answer and no dial tone: the modem sends these without a '+', which makes the unspecified code |
| AtContexts.AtResponse.AddIntermediate | huawei-generic/atchannel.c:253-268 | a new first node, the others as they were |
| AtContexts.AtResponse.ReverseIntermediates | huawei-generic/atchannel.c:909-926 | the same nodes, relinked in the opposite order |
| AtContexts.AtContext.WriteAll | huawei-generic/atchannel.c:657-742 | all of the string and the terminator goes out, or a proper prefix of it and an error |
| AtContexts.AtContext.ProcessLine | huawei-generic/atchannel.c:362-419 | the linked response, the text waiting for a prompt, the wire and the unsolicited handler change as the classification of the line says |
| AtContexts.AtContext.HandOut | huawei-generic/atchannel.c:989-994 | the response handed out lists its lines in the order they came |
| AtContexts.DispatchIff | huawei-generic/atchannel.c:612-655 | what the reader hands on is decided by this: all lines in order, each alone unless it announces a message, which takes the next line with it; a last line that announces one is left out |
| AtContexts.ReaderLoop | huawei-generic/atchannel.c:612-655 | every line of the run is handled in order, SMS messages as pairs; the pending response, the unsolicited handler and, at the end, the closed flag are what these lines make of them |
| AtRefinement.ProcessLocked | huawei-generic/atchannel.c:362-419 | processLine on the linked response does what the action of the reader does to the protocol's state, and writes the text exactly when it does |
| AtRefinement.CheckLocked | huawei-generic/atchannel.c:951-963 | installing a response, with memory and without, does what the state's action does |
| AtRefinement.WriteLocked | huawei-generic/atchannel.c:657-742 | writing the command line does what the state's action does; it is whole exactly when the thread goes on to wait |
| AtRefinement.ReturnLocked | huawei-generic/atchannel.c:982-994 | the response handed out, turned over, holds what the state's response holds |
| AtRefinement.DropLocked | huawei-generic/atchannel.c:986-987 | a response that nobody wants is freed as the state says |
| AtRefinement.FinishLocked | huawei-generic/atchannel.c:744-754 | clearing the command does what the state's action does |
| AtSafety.TryKeeps | huawei-generic/atchannel.c:947-949 | trying for the request mutex keeps the invariant: a thread parks only while another is still to broadcast |
| AtSafety.CheckKeeps | huawei-generic/atchannel.c:951-963 | installing a response keeps the invariant, with and without memory |
| AtSafety.WriteKeeps | huawei-generic/atchannel.c:965-968 | writing the command line keeps it, whole, cut short or refused |
| AtSafety.ReturnKeeps | huawei-generic/atchannel.c:982-999 | turning over the response keeps it, freed or handed out |
| AtSafety.FinishKeeps | huawei-generic/atchannel.c:1001-1005 | clearing the command and the broadcast keep it |
| AtSafety.ProcessKeeps | huawei-generic/atchannel.c:362-419 | processing any line keeps it, and a final one wakes the waiter |
| AtSafety.ClosedKeeps | huawei-generic/atchannel.c:595-610 | closing the channel keeps it, and wakes the waiter |
| AtSafety.OwnerWaits | huawei-generic/atchannel.c:362-419 | the reader works on a response only when its command has been written whole and its thread waits |
| AtSafety.InvKept | huawei-generic/atchannel.c:934-1049 | every action of every thread keeps the invariant |
| AtSafety.RunInv | huawei-generic/atchannel.c:934-1049 | the invariant holds in every state of every run |
| AtRuns.MutualExclusion | huawei-generic/atchannel.c:934-1049 | at most one thread has either mutex, and none has the first while the reader works |
| AtRuns.NeverPending | huawei-generic/atchannel.c:951-954 | a pending response means that its thread has the request mutex; a thread that gets it never finds a command pending |
| AtRuns.NoWakeupLost | huawei-generic/atchannel.c:948-980 | nobody waits for a broadcast that has already happened, nor for a final response that is already there |
| AtRuns.PendingExists | huawei-generic/atchannel.c:965-1005 | wherever the code uses the pending response without a check, there is one |
| AtAccounts.StatusMoves | huawei-generic/atchannel.c:744-754 | exactly which action frees, detaches or gives away a response; only a pending or detached one is freed, only a detached one given away |
| AtAccounts.SettledOnce | huawei-generic/atchannel.c:887-907 | in every run, the actions that freed a response are one if it is freed and none otherwise, and the same for giving it away: never twice, never both |
| AtAccounts.NothingLeaks | huawei-generic/atchannel.c:934-1008 | when no call is under way nothing is pending, and every response ever allocated was freed or given away exactly once |
| AtAccounts.LinesAccounted | huawei-generic/atchannel.c:362-419 | over a run, the lines processed while a response is pending are its window, and of these the unsolicited handler was given, in order, exactly those that are nothing of the response's |
| AtAccounts.LooseLines | huawei-generic/atchannel.c:362-370 | the lines processed with nothing pending all went to the unsolicited handler, in order |
| AtAccounts.RunConserves | huawei-generic/atchannel.c:254-419 | line conservation over a run: what was processed while a response was pending is, each line once, its final responses, the prompt, its intermediate lines, and what the handler was given meanwhile |
| AtRuns.WrapperResult | huawei-generic/atchannel.c:1104-1225 | 0 only with a response, which has an intermediate line if the wrapper needs one, and whose final response is a success or a number that cancels its error class; on an error no response, except from the raw wrapper |
| AtRuns.ZeroResult | huawei-generic/atchannel.c:934-1297 | 0 from any wrapper or the handshake means that the modem acknowledged the last request, whether or not the caller gets the response |
| AtEndings.CodeMeans | huawei-generic/atchannel.c:941-1010 | how the last request of a returned call ended, read off the run, gives its code: nothing formatted, no memory, channel closed at the write or when the wait ended, a write cut short, time run out, or the response as it was then; and whether a response is handed out, and which |
| AtEndings.CodesTell | huawei-generic/atchannel.c:941-1010 | a call returns that the channel was closed exactly when its last request met a closed channel at its write or when its wait ended, that time ran out exactly when its limited wait expired, and no memory exactly for that, except for a modem that sends the number of that code; 0 only if the response was taken with the channel open |
| AtRetries.RequestsMade | huawei-generic/atchannel.c:1266-1297 | a returned call has made one request, or none if its command was formatted into nothing; a handshake between one and eight, and all eight unless one succeeded |
| AtRetries.AgainIfFailed | huawei-generic/atchannel.c:1274-1282 | only a handshake makes another request, and only after one that failed |
| AtRuns.ContentFromWindow | huawei-generic/atchannel.c:362-419 | the contents of any response, pending or given away, follow from the lines processed while it was pending |
| AtRuns.WrapperLines | huawei-generic/atchannel.c:1070-1249 | the lines of a response by the wrapper that was called; those for the single-line, SMS and multi-line wrappers all start with the prefix asked for |
| AtRuns.LineGoes | huawei-generic/atchannel.c:362-419 | each processed line joins the window of the pending response, or goes to the unsolicited handler |
| AtRuns.TextAfterCommand | huawei-generic/atchannel.c:376-380 | the text of an SMS command goes out at most once, and after the whole command line |
| AtRuns.TextWhilePending | huawei-generic/atchannel.c:376-380 | it goes out only while the response of its command is pending; text and command lines go out whole only while the channel is open |
| AtRuns.OwnCommand | huawei-generic/atchannel.c:1015-1041 | a command line is the caller's own, up to 511 characters if the wrapper formats it, unless it does so and the caller had to wait |
| AtRuns.OtherCommand | huawei-generic/atchannel.c:1022-1048 | a formatted command that waits can go out with the text of another thread, as the static buffer is formatted into again |
| AtRuns.OwnCommandIff | huawei-generic/atchannel.c:1015-1041 | a call is sure to send its own command exactly when its wrapper does not format, or the command is formatted into nothing and refused |
| AtProgress.GoesOnIff | huawei-generic/atchannel.c:934-1008 | while a call is under way the channel can go on by itself, without new calls, closing, input, hang-up or accidental wakeups, exactly unless it waits for the modem: a command without time limit sleeps, all other calls wait for it, and the reader reads or is gone |
| AtProgress.WorkShrinks | huawei-generic/atchannel.c:934-1049 | each of the channel's own actions leaves less work, a number that depends on where its threads and its reader are: retries of a handshake and threads woken by a broadcast included |
| AtProgress.ComesToRest | huawei-generic/atchannel.c:934-1049 | however the channel goes on by itself, from any state, it stops after at most as many actions as it has work: no endless waking and parking |
| AtProgress.RestsIff | huawei-generic/atchannel.c:934-1049 | where it stops, all calls have returned or they wait for the modem |
| AtProgress.FinalReleases | huawei-generic/atchannel.c:344-375 | a final response gets a waiting command going again |
| AtProgress.NoDeadlock | huawei-generic/atchannel.c:595-610 | so it is in every state of every run; if the end of the stream is reported to a callback, the reader is there whenever a call waits for the modem |
| AtProgress.StuckReachable | huawei-generic/atchannel.c:595-610 | without the callback a call can wait for a reader that is gone |
| AtProgress.SilentModem | huawei-generic/atchannel.c:970-974 | a silent modem leaves a command without time limit waiting |
| Tlvs.StringToBinary | huawei-generic/misc.c:101-119 | the bytes of an even number of digits, an error without a change for an odd one |
| Tlvs.BinaryToString | huawei-generic/misc.c:121-141 | the digits and a terminator, nothing behind them |
| Tlvs.ParseTlv | huawei-generic/misc.c:143-169 | the structure at the cursor, or an error when it does not fit before the end |
| Tlvs.PrintedTlv | huawei-generic/misc.c:121-169 | a printed structure is found again, whatever surrounds it |
| Tlvs.ListRoundTrip | huawei-generic/misc.c:101-169 | printing any list of structures and parsing it gives the list |
| Fcp.FcpReader.Property | huawei-generic/fcp_parser.c:67-118 | one property changes the description as its tag says |
| Fcp.FcpReader.ToTs51011 | huawei-generic/fcp_parser.c:34-129 | on any input it terminates, reads inside it, and is the walk over the properties, each bounded by the whole stream |
| Fcp.WalkFolds | huawei-generic/fcp_parser.c:59-126 | on any stream the walk is a fold over the properties that can be read, and an error if one cannot |
| Fcp.TemplateRead | huawei-generic/fcp_parser.c:34-129 | a printed template is read as a fold over its properties |
| Fcp.FieldsOf | huawei-generic/fcp_parser.c:59-121 | a list of properties is accepted exactly when each is acceptable, and then every field is what the last property about it says, the count of valid fields that of all descriptors, modulo 256 |
| Fcp.RefusedIff | huawei-generic/fcp_parser.c:67-118 | a property is refused exactly if it is not acceptable, with the error that its tag has |
| Fcp.FirstRefused | huawei-generic/fcp_parser.c:67-118 | the first property that is refused decides the error of a list |
| Fcp.ConvertedIff | huawei-generic/fcp_parser.c:34-129 | any stream is accepted exactly when it starts with a template whose properties can all be read and are acceptable, and then the description is what they say |
| Fcp.InsideIff | huawei-generic/fcp_parser.c:59-64 | the properties lie inside the template exactly when they can be read with its end as the bound |
| Fcp.AcceptedPastTheEnd | huawei-generic/fcp_parser.c:59-64 | an accepted template whose property runs past its end |
| V4l2.ChooseMode | libcamera/V4L2Camera.cpp:145-179 | among all modes that cover the request the first lexicographic minimum of area excess and distance in frame rate; none exactly when none covers it |
| V4l2.AtMostIff | libcamera/V4L2Camera.cpp:156-174 | closer means fewer pixels, or as many and a frame rate that is not further away on either side |
| V4l2.MarginFits | libcamera/V4L2Camera.cpp:248-260 | the margins are even, leave the output inside the captured frame, and are in the middle to less than four pixels |
| V4l2.Cropped | libcamera/V4L2Camera.cpp:242-264 | the geometry of a covering mode is valid, has the requested size and even margins |
| V4l2.RowInside | libcamera/V4L2Camera.cpp:262-264 | every copied row ends inside the captured frame |
| V4l2.CopyYuyv | libcamera/V4L2Camera.cpp:654-665 | every row is copied from its place, inside both buffers, and nothing behind the frame changes |
| V4l2.PixelMapped | libcamera/V4L2Camera.cpp:557-665 | output pixel (x, y) is captured pixel (x + startX, y + startY) |
| Cameras.V4l2Camera.Init | libcamera/V4L2Camera.cpp:100-264 | with a covering mode and a driver that takes it, capture has exactly the requested size, even when the buffers fail afterwards, and a valid geometry if the driver keeps the mode; else nothing changes |
| Cameras.V4l2Camera.GrabRawFrame | libcamera/V4L2Camera.cpp:537-665 | a frame is dropped exactly when the buffer has no room for it; any other is copied row by row, and what is behind it stays |
| Cameras.CameraHardware.InitRaw | libcamera/CameraHardware.cpp:1008-1076 | the raw preview heap fits the active size; the preview is stopped if that changed anything |
| Cameras.CameraHardware.InitPreview | libcamera/CameraHardware.cpp:1079-1150 | the preview heap fits format and size, and is never replaced under a running thread |
| Cameras.FramesHold | libcamera/CameraHardware.cpp:1079-1131 | the bytes of a frame: two for each pixel in YUYV; in YUV 4:2:0 one of brightness for each pixel and two of colour for each four |
| Cameras.PlanesHold | libcamera/CameraHardware.cpp:1095-1118 | the same in planes, with lines rounded up to 16 bytes |
| Cameras.CameraHardware.InitRecording | libcamera/CameraHardware.cpp:1152-1269 | the recording heap fits format and size, and is never replaced under a running thread |
| Cameras.CameraHardware.InitHeapLocked | libcamera/CameraHardware.cpp:985-1278 | nothing changes without an allocator; with one, heaps and parameters agree, the preview restarts exactly for a change of size, and the recursion ends; a preview that runs afterwards is in step exactly if it restarted or captured the right size before, or, without an allocator, if nothing had to change |
| Cameras.CameraHardware.StartPreviewLocked | libcamera/CameraHardware.cpp:452-528 | a started preview is in step exactly with an allocator, or if the heaps fitted before |
| Cameras.CameraHardware.StartPreview | libcamera/CameraHardware.cpp:530-536 | the same, for the call; a preview that runs is left alone |
| Cameras.CameraHardware.SetParameters | libcamera/CameraHardware.cpp:679-737 | unsupported formats change nothing; the exact condition for a preview that runs after other parameters to be in step |
| Cameras.CameraHardware.StartRecording | libcamera/CameraHardware.cpp:591-610 | capture goes to the video size; the exact condition for a preview that runs afterwards to be in step |
| Cameras.CameraHardware.StopRecording | libcamera/CameraHardware.cpp:612-630 | capture goes back to the preview size; the exact condition for a preview that runs afterwards to be in step |
| Cameras.CameraHardware.SetMsgType | libcamera/CameraHardware.cpp:376-415 | capture follows the video message while recording; the exact condition for a preview that runs afterwards to be in step |
| Cameras.CameraHardware.BeginPicture | libcamera/CameraHardware.cpp:1667-1695 | taking a picture stops the preview and fits the heaps to what is captured, without breaking the agreement |
| Cameras.CameraHardware.GrabFrame | libcamera/CameraHardware.cpp:1306-1377 | a frame is dropped exactly when the raw size is smaller than the captured one; in step never, and the buffer picked is large enough |
| Cameras.ServeAll | libcamera/CameraHardware.cpp:376-737 | with an allocator, after any sequence of calls and whatever the driver answers, a running preview is in step |
| Cameras.StaleSize | libcamera/CameraHardware.cpp:452-528 | starting the preview without an allocator and installing one later leaves heaps smaller than the capture |

## Left out

- Multi-byte UTF-8: text is ASCII, as utf8_next does not advance over continuation bytes (huawei-generic/gsm.c:370-372).
- The user data header branch of sms_get_text_utf8 (huawei-generic/sms_gsm.c:691-712): the model returns no text for it, as the reserved and the written length differ by one.
- DELIVER PDUs read with the repository's own parser, and smspdu_get_sender_address: the sender is read as a service centre address and its digits are not skipped (huawei-generic/sms_gsm.c:357-415). Built DELIVER PDUs are read with a parser written from the standard.
- cdma_to_gsmpdu (huawei-generic/sms.c:207-249): its parts are here, the CDMA decoder, FromStr, CreateDeliverUtf8 and SmsPduToHex. Its static buffer is never cleared, so by SmsSubmit.DigitsLeftOver a shorter message keeps digits of a longer one before it.
- A bound of 160 septets for the parts of a long message: a part holds 154 and its header counts for 7.
- Contents of a rope across growth from its inline bytes, which the code does not copy (huawei-generic/gsm.c:259-266): only the position is promised there.
- Reads past the end of a buffer: a decoder that would make one returns none, or the call asks for an input on which it does not happen.
- SmsSubmit.GetTextUtf8: gives no text for user data with a header, and speaks of an empty rope, which is all that the source passes.
- SmsSubmit.GetTextMessage: gives no text for PDUs that are not SUBMIT, nor for user data with a header.
- Bridge.GsmToCdmaPdu: stops where the source goes on with an undefined text or a buffer that is too small.
- Widths of C integers: areas of camera modes, and error codes, which wrap for numbers near the limit of int (AtErrors.NoZeroByWrapping says that this makes no further 0).
- C char is taken as unsigned, as on ARM.
- AtErrors.AtGetError: a failed response that the raw wrapper hands out holds the cut line; the state machine keeps the whole one.
- AtContexts.ReaderLoop: does not interleave with commands; the interleaving is that of AtChannel.
- Logging, thread keys, va_list formatting itself, retried interrupted calls, at_send_escape and the error names.
- AtRuns.OwnCommand: speaks of one channel; the buffer for formatted commands is shared by all of them (huawei-generic/atchannel.c:1022).
- Fairness: AtProgress bounds what the channel does by itself, not when it does it.
- Final responses on which at_get_error steps over the end of the line: the state machine gives them the unspecified error.
- BCD numbers, timestamps, ADN records, UCS2 to septet routines, getFirstElementValue.
- Camera frames in formats other than YUYV, the JPEG path, luminance settling and the preview window.
- Cameras.CameraHardware.InitHeapLocked: addresses inside the heaps are not modelled, only their sizes; the picture heaps are one number.
- Cameras.V4l2Camera.Init: the pixel format loop and the buffer mapping are each one answer of the driver; how frames are cut is stored only when the driver keeps the mode, in YUYV.
- requestdatahandler.c, lights, recovery, Java dialogs, makefiles and init scripts: plumbing or user interface.
