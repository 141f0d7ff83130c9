# NMEA2000 gateway: a model in Dafny

The gateway turns byte streams into marine messages and back. This project models its bit-level and
stream-level machinery, in the form the program has it (classes with fields, loops over arrays), and ties each
loop and each state change to a specification about which the properties are proved.

| files | model |
|---|---|
| `Wrappers`, `Sequences`, `Decimals`, `Bits` | options and results; facts about sequences; decimal numbers; bit strings, two's complement, C's operators on words |
| `AisAlphabet`, `AisEncoder`, `AisVoyage`, `AisStatic` | six-bit texts and armour; the message object that fields are appended to; Messages 5 and 24 |
| `Nmea`, `Fragments`, `AisDecoder` | checksum and words of a sentence; reassembly in ten slots; the decoder with its pool of buffers |
| `AisPayload`, `AisDearmour`, `AisMessages` | reading fields and texts through a sliding window; de-armouring through a 64-bit accumulator; message bodies |
| `AisStale`, `AisStreams` | when a report depends on what an earlier message left in the buffer; streams of lines of several messages at once |
| `AisLayouts` | the layouts of ITU-R M.1371-5, Annex 8, as lists of fields, and the reports made of messages written by them |
| `AisRoundTrip`, `AisEndToEnd`, `AisSentences`, `AisPosition` | from the encoder to the decoder's user: one field, a whole voyage in two sentences, any message in one, positions |
| `GwBuffer`, `SerialLog` | the byte ring, its line fetcher, and the log that drains through a serial port |
| `SetConfig` | the parser of setConfig bodies, fed in chunks |
| `MessageQueue` | reference counts and notification of requests handed to the main loop, as interleaved steps |
| `Qmp6988` | the fixed-point compensation of the pressure sensor |
| `Throttle`, `XdrBatch`, `Waypoints` | send intervals per key, XDR sentences, waypoint numbers |
| `Md5` | the digest in JavaScript against RFC 1321 |

How machine arithmetic is stated: words are natural numbers with the operators written out bit by bit, or
bit-vectors in `Nmea` and `Md5`; 32- and 64-bit signed numbers of `Qmp6988` are subset types, so that each
assignment proves that nothing overflows. `>>` of a signed number rounds down, `/` towards zero. What hardware, the
clock or a foreign library answers is a parameter: a function of how often it was asked, or a list.

Where code and comments differ the model follows the code: `lib/iictask/QMP6988.cpp`
(line 146) notes 34 bits for `bt2`, which can need 35 (Qmp6988.WideCoefficient), so that not the noted bit counts but the ranges of the
coefficients keep its product within 64 bits; the vendor
field of Message 24 is written with seven characters and read with three; a name in a setConfig body may have 31
characters and a value 510, or 511 at the end, and longer ones keep only what followed the last full buffer. The decoder never clears its payload buffer: a Message 14
of 21 or 53 characters and a Message 21 of 53 can be reported with characters that an earlier message left there, and
`AisStale` says for which payloads. The temperature of the pressure sensor is right exactly if it fits in 16 bits.
The rounded constants of the program move its polynomials off those of the QMP6988 data sheet by a bounded amount (Qmp6988.PressureOfDataSheet).

## Model

| member | source | states |
|---|---|---|
| AisEndToEnd.SendVoyage | lib/nmea2ktoais/NMEA0183AISMessages.cpp:120-145 | for every voyage and every prior state of encoder and decoder: encoded, cut into two sentences and decoded, Message 5 is reported with the same dimensions, draught and normalised texts; with the MMSI if it has at most nine digits, the repeat indicator if it is at most 3, the IMO number if it is 0 or 999999 to 1073741823, the ship type if it is at most 99, and 0 otherwise; with the fix type that belongs to the GNSS type, and the date reduced to its widths; the other slots are untouched |
| AisEndToEnd.EncodeVoyage | lib/nmea2ktoais/NMEA0183AISMsg.cpp:163-187 | the two sentences built from one message object are the first 336 bits and the last 88 with two fill bits, armoured, in slot 5 |
| AisEndToEnd.FirstSentence | lib/aisparser/ais_decoder.cpp:941-947 | whatever slot 5 held, the first sentence of a voyage opens it with that part and reports nothing yet |
| AisEndToEnd.SecondSentence | lib/aisparser/ais_decoder.cpp:949-987 | the second sentence closes the slot and hands both parts, with the header and footer of the first, to the decoder of payloads |
| AisEndToEnd.VoyageDone | lib/aisparser/ais_decoder.cpp:750-782 | whatever the payload buffer holds, both parts are announced and reported as the voyage |
| AisEndToEnd.SentenceCrcMatches | lib/aisparser/ais_decoder.cpp:785-819 | every sentence written with its own checksum passes the check |
| AisEndToEnd.SentencesSpelled | lib/nmea2ktoais/NMEA0183AISMsg.cpp:163-187 | the two sentences letter by letter, but for the payloads and the checksums |
| AisVoyage.InRangeArrives | lib/nmea2ktoais/NMEA0183AISMessages.cpp:294-323 | IMO number, MMSI and repeat indicator arrive unchanged exactly if they are in range |
| AisVoyage.ExpectedArrives | lib/nmea2ktoais/NMEA0183AISMessages.cpp:285-575 | the values written field by field are those of the row of SendVoyage, for every voyage |
| AisVoyage.SetAISClassAMessage5 | lib/nmea2ktoais/NMEA0183AISMessages.cpp:120-145 | the message object ends up with exactly the 424 bits of the 21 fields in order; no step runs out of room |
| AisVoyage.LayoutsAgree | lib/aisparser/ais_decoder.cpp:460-496 | the layout the encoder writes and the one decodeType5 reads, written independently, agree field by field |
| AisVoyage.PayloadRoundTrip | lib/aisparser/ais_decoder.cpp:460-496 | de-armouring the two payloads one behind the other and decoding them gives the voyage back |
| AisStatic.SendStatic | lib/nmea2ktoais/NMEA0183AISMessages.cpp:237-277 | Message 24: the two payloads made from one string of 296 bits are decoded as name, and as type, callsign, dimensions and vendor |
| AisStatic.PartAReport | lib/nmea2ktoais/NMEA0183AISMsg.cpp:263-276 | part A is the first 168 bits and is decoded as the name |
| AisStatic.PartBReport | lib/nmea2ktoais/NMEA0183AISMsg.cpp:282-297 | part B repeats 39 bits, sets the part number and moves the rest 128 bits up; decodeType24 finds every field there |
| AisStatic.VendorWhole | lib/aisparser/ais_decoder.cpp:661-719 | the encoder writes seven vendor characters, the decoder reads three: the text comes back whole exactly if its normal form has at most three |
| AisStatic.VendorCut | lib/aisparser/ais_decoder.cpp:661-719 | a vendor of four letters is one that does not |
| AisPosition.SetAISClassABMessage1 | lib/nmea2ktoais/NMEA0183AISMessages.cpp:81-114 | Messages 1 to 3: the message object ends up with exactly the 168 bits of the 16 fields in order, and their payload is handed over |
| AisPosition.SetAISClassBMessage18 | lib/nmea2ktoais/NMEA0183AISMessages.cpp:154-201 | the same for the 20 fields of Message 18 |
| AisPosition.PositionRoundTrip | lib/aisparser/ais_decoder.cpp:403-428 | for every position that payload is reported with the same rate of turn, speed, accuracy, longitude, latitude, course, heading and RAIM flag; MMSI and repeat as in Message 5, an unknown status as 15, seconds above 63 as 60; whatever the decoder did before |
| AisPosition.ClassBRoundTrip | lib/aisparser/ais_decoder.cpp:546-577 | the same for Message 18 with its flags |
| AisPosition.SendPosition | lib/nmea2ktoais/NMEA0183AISMessages.cpp:81-114 | a position encoded and sent in one sentence: the user is told the line, the payload and that position, and no slot changes, whatever the state of encoder and decoder |
| AisPosition.SendClassB | lib/nmea2ktoais/NMEA0183AISMessages.cpp:154-201 | the same for Message 18 |
| AisSentences.SentenceAnswers | lib/aisparser/ais_decoder.cpp:845-1003 | what is done with any sentence of the form written here whose checksum is right, case by case with the words of each error: payload too short or too long, wrong count, a single message, wrong sequence id, wrong number, or a fragment for its slot |
| AisSentences.FragmentAnswers | lib/aisparser/ais_decoder.cpp:921-1003 | which fragment opens its slot anew, is appended, is decoded together with what is there, or empties the slot with which error; the other slots stay |
| AisSentences.OtherLines | lib/aisparser/ais_decoder.cpp:845-1027 | what is done with a line of at most two characters, one without a sentence, one with a wrong checksum, and one whose words are not those of an AIS sentence |
| AisSentences.SendSentence | lib/aisparser/ais_decoder.cpp:899-918 | a message in a single sentence with any channel, payload and fill digit: exactly the line, the payload with its header and footer, and the report of the payload or the error in it are told; no slot changes |
| AisSentences.SingleSpelled | lib/nmea2ktoais/NMEA0183AISMessages.cpp:77-77 | such a sentence letter by letter, but for the checksum |
| AisSentences.NumberWord | lib/aisparser/strutils.h:278-290 | a number that fits in 32 bits is read as it was written, and an empty word as zero |
| AisRoundTrip.NumberRoundTrip | lib/nmea2ktoais/NMEA0183AISMsg.cpp:67-85 | a number of 1 to 32 bits, appended at any bit offset of a message of any size whose whole characters reach to its end, is read back unsigned or in two's complement |
| AisRoundTrip.TextFieldRoundTrip | lib/nmea2ktoais/NMEA0183AISMsg.cpp:98-131 | a text appended at such an offset comes back in its normal form |
| AisAlphabet.ArmourRoundTrip | lib/nmea2ktoais/NMEA0183AISMsg.cpp:134-160 | de-armouring undoes armouring for every bit string, but for a tail that fills no character |
| AisAlphabet.DearmourArmour | lib/nmea2ktoais/NMEA0183AISMsg.cpp:152-154 | the two ways of moving 6-bit values into printable characters are inverse |
| AisAlphabet.ArmourTable | lib/nmea2ktoais/NMEA0183AISMsg.cpp:152-154 | the 64 armour characters in order |
| AisAlphabet.SixBitInverse | lib/nmea2ktoais/NMEA0183AISMsg.cpp:110-118 | the code of a character outside the alphabet is that of `@`, every other code leads back to its character |
| AisAlphabet.TextRoundTrip | lib/aisparser/ais_decoder.cpp:80-123 | every text, of any length and any characters, comes back as its normal form |
| AisAlphabet.NormalTextMeaning | lib/aisparser/ais_decoder.cpp:80-123 | the normal form is the longest beginning that fits and can be sent, without the spaces at its end |
| AisEncoder.AisMsg.AddIntToPayloadBin | lib/nmea2ktoais/NMEA0183AISMsg.cpp:67-85 | appends exactly the two's complement bits, most significant first, or nothing when there is no room |
| AisEncoder.AisMsg.AddBoolToPayloadBin | lib/nmea2ktoais/NMEA0183AISMsg.cpp:88-93 | appends a flag as a field of the given width |
| AisEncoder.AisMsg.AddEncodedCharToPayloadBin | lib/nmea2ktoais/NMEA0183AISMsg.cpp:98-131 | appends a text as 6-bit codes filled up with `@`; the early terminator it writes never shows |
| AisEncoder.AisMsg.ConvertBinaryAISPayloadBinToAscii | lib/nmea2ktoais/NMEA0183AISMsg.cpp:134-160 | the payload is the armoured form of the bits |
| AisEncoder.AisMsg.GetPayload | lib/nmea2ktoais/NMEA0183AISMsg.cpp:218-225 | a payload for 168 bits and nothing otherwise |
| AisEncoder.AisMsg.GetPayloadType5Part1 | lib/nmea2ktoais/NMEA0183AISMsg.cpp:229-241 | the first 336 of exactly 424 bits |
| AisEncoder.AisMsg.GetPayloadType5Part2 | lib/nmea2ktoais/NMEA0183AISMsg.cpp:245-257 | the last 88 of exactly 424 bits and two zeros |
| AisEncoder.AisMsg.GetPayloadType24PartA | lib/nmea2ktoais/NMEA0183AISMsg.cpp:263-276 | the first 168 of exactly 296 bits |
| AisEncoder.AisMsg.GetPayloadType24PartB | lib/nmea2ktoais/NMEA0183AISMsg.cpp:282-297 | 39 bits, a one, and bits 168 to 295 of exactly 296 |
| AisDearmour.DecodeAscii | lib/aisparser/ais_decoder.cpp:126-207 | the 64-bit accumulator loops write the concatenation of the 6-bit values, zero-padded to whole words, for every payload length and whatever the buffer held |
| AisDearmour.Accumulator.TakeFours | lib/aisparser/ais_decoder.cpp:147-174 | four characters at a time, while more than four are left |
| AisDearmour.Accumulator.TakeOnes | lib/aisparser/ais_decoder.cpp:176-203 | the remaining characters one at a time |
| AisDearmour.Accumulator.Flush | lib/aisparser/ais_decoder.cpp:204-206 | the last word is written whole, its unused bits zero |
| AisDearmour.DeclaredArraySuffices | lib/aisparser/ais_decoder.h:28-29 | the declared array holds what is written for payloads of up to 405 characters, and for no longer ones |
| AisDearmour.DeclaredArrayTooShort | lib/aisparser/ais_decoder.h:28-29 | for 406 characters 312 bytes are written |
| AisPayload.PayloadBuffer.GetUnsignedValue | lib/aisparser/ais_decoder.cpp:40-57 | the 48-bit window at any bit index yields the unsigned value of the next bits |
| AisPayload.PayloadBuffer.GetSignedValue | lib/aisparser/ais_decoder.cpp:60-77 | the same bits read in two's complement |
| AisPayload.PayloadBuffer.GetString | lib/aisparser/ais_decoder.cpp:80-123 | text up to the first `@` without trailing spaces, at most 64 characters, and the bit index moved over the whole field |
| AisMessages.BodyDecoder.DecodeMobileAisMsg | lib/aisparser/ais_decoder.cpp:750-782 | the buffer is overwritten with the payload and the zeros behind it, the rest of it stays; the report, or the error, is the one that the buffer then holds |
| AisMessages.BodyDecoder.DecodeBody | lib/aisparser/ais_decoder.cpp:403-747 | each type reports the fields of its layout, or its size error |
| AisMessages.BodyDecoder.DecodeType14 | lib/aisparser/ais_decoder.cpp:529-543 | the safety message reads its text as far as the size says |
| AisMessages.BodyDecoder.DecodeType21 | lib/aisparser/ais_decoder.cpp:622-658 | the report of an aid to navigation reads its fields in place, and the extension of the name if the message is longer than 272 bits |
| AisStale.SettledExactly | lib/aisparser/ais_decoder.cpp:750-782 | history: the report is the same whatever the buffer held before exactly if the payload is settled: not of type 14 or 21, or with a text that ends, or has an `@`, within the words written for it |
| AisStale.TextUnsettled | lib/aisparser/ais_decoder.cpp:80-123 | a text field that goes on behind the bits two buffers share is read differently if one goes on with zeros and the other with ones |
| AisStale.TextSettled | lib/aisparser/ais_decoder.cpp:80-123 | one that stops within them is read alike, whatever follows |
| AisStale.UnsettledLengths | lib/aisparser/ais_decoder.cpp:529-543 | a payload that is not settled is of type 14 with 21 or 53 characters and at most two fill bits, or of type 21 with 53 characters |
| AisStale.UnsettledMessages | lib/aisparser/ais_decoder.cpp:622-658 | there are such payloads of each of these lengths |
| AisStale.OtherReportSettled | lib/aisparser/ais_decoder.cpp:403-747 | only payloads reported as type 14 or 21 can fail to be settled |
| AisMessages.BodyDecoder.DecodeType123 | lib/aisparser/ais_decoder.cpp:403-428 | the position report reads its fields in place |
| AisMessages.BodyDecoder.DecodeType5 | lib/aisparser/ais_decoder.cpp:460-496 | the voyage report reads its fields in place |
| AisMessages.BodyDecoder.DecodeType18 | lib/aisparser/ais_decoder.cpp:546-577 | the class B position report reads its fields in place |
| AisMessages.BodyDecoder.DecodeType19 | lib/aisparser/ais_decoder.cpp:580-619 | the extended class B report reads its fields in place |
| AisMessages.BodyDecoder.DecodeType24 | lib/aisparser/ais_decoder.cpp:661-719 | the static report reads part A or B; other part numbers and short messages are errors |
| AisLayouts.PositionReported | lib/aisparser/ais_decoder.cpp:403-428 | for all values in range: the bits of the fields of Messages 1 to 3, in the order and widths of the standard, armoured, are reported as exactly those values |
| AisLayouts.BaseStationReported | lib/aisparser/ais_decoder.cpp:431-458 | the same for Messages 4 and 11 |
| AisLayouts.AircraftReported | lib/aisparser/ais_decoder.cpp:499-527 | the same for Message 9 |
| AisLayouts.SafetyReported | lib/aisparser/ais_decoder.cpp:529-543 | the same for Message 14 with a text of 1 to 63 characters |
| AisLayouts.ClassBReported | lib/aisparser/ais_decoder.cpp:546-577 | the same for Message 18 |
| AisLayouts.ExtendedReported | lib/aisparser/ais_decoder.cpp:580-619 | the same for Message 19 |
| AisLayouts.AidReported | lib/aisparser/ais_decoder.cpp:622-658 | the same for Message 21 without an extension of the name |
| AisLayouts.NamedAidReported | lib/aisparser/ais_decoder.cpp:622-658 | the same for Message 21 with an extension of 14 characters |
| AisLayouts.LongRangeReported | lib/aisparser/ais_decoder.cpp:722-747 | the same for Message 27 |
| AisLayouts.Refused | lib/aisparser/ais_decoder.cpp:403-782 | for every payload: which type, part number or size is an error, with its words, and that nothing else is |
| Nmea.Crc | lib/aisparser/ais_decoder.cpp:211-236 | the word-at-a-time loop is the exclusive or of all bytes, for every alignment and length |
| Nmea.XorParity | lib/aisparser/ais_decoder.cpp:211-236 | a bit of that value is set exactly if an odd number of bytes has it |
| Nmea.HexDigits | lib/aisparser/ais_decoder.cpp:793-801 | the digits a checksum is written with |
| Nmea.CheckCrc | lib/aisparser/ais_decoder.cpp:785-819 | accepts a sentence exactly if the two characters after `*` are taken for that value |
| Nmea.HexAccepted | lib/aisparser/ais_decoder.cpp:793-801 | upper and lower case digits are both accepted |
| Nmea.CrcAcceptedExactly | lib/aisparser/ais_decoder.cpp:793-801 | acceptance digit by digit: no other pair of table values adds up to the checksum |
| Nmea.Separate | lib/aisparser/strutils.h:328-351 | the word loop finds the words between commas, at most as many as there is room for |
| Nmea.WordsOfJoin | lib/aisparser/strutils.h:328-351 | words written with commas between them are found again |
| Fragments.SlotMeaning | lib/aisparser/ais_decoder.cpp:297-319 | a slot is in use exactly while the fragments since the last first one came in order and are too few; it holds their payloads in order |
| Fragments.DeliveredExactly | lib/aisparser/ais_decoder.cpp:949-1003 | a message is delivered exactly when the last fragments of its id are number 1 to the announced count without a gap |
| Fragments.SlotOfId | lib/aisparser/ais_decoder.cpp:921-1003 | sentences of other ids leave a slot alone |
| Fragments.NonInterference | lib/aisparser/ais_decoder.cpp:921-1003 | what is delivered for one sequence id is what its own sentences alone deliver, in any stream |
| AisDecoder.AisDecoder.DecodeMsg | lib/aisparser/ais_decoder.cpp:845-1027 | a line changes the slots and the payload buffer and calls the user exactly as the function of slots, buffer and line says, for all message types, and keeps the invariants of slots and pool |
| AisDecoder.AisDecoder.NextFragment | lib/aisparser/ais_decoder.cpp:949-987 | a continuing fragment is appended; the last one delivers and frees the slot |
| AisDecoder.AisDecoder.BreakSlot | lib/aisparser/ais_decoder.cpp:988-1003 | a fragment that does not continue its slot empties it |
| AisDecoder.AisDecoder.BufferInOnePlace | lib/aisparser/ais_decoder.cpp:241-339 | conservation: every buffer ever allocated is in the pool once and empty, or held by the message of exactly one slot |
| AisDecoder.BufferStore.GetBuffer | lib/aisparser/ais_decoder.cpp:241-253 | a buffer from the pool or a new one, empty and held by nobody |
| AisDecoder.BufferStore.ReturnBuffer | lib/aisparser/ais_decoder.cpp:256-260 | a buffer goes back empty |
| AisDecoder.AisDecoder.NewMultiSentence | lib/aisparser/ais_decoder.cpp:264-284 | a new message holds four buffers: payload, header, footer, line |
| AisDecoder.AisDecoder.Destroy | lib/aisparser/ais_decoder.cpp:286-295 | a message that goes away gives all its buffers back |
| AisStreams.SlotsOfLines | lib/aisparser/ais_decoder.cpp:845-1027 | over any stream of lines, good and bad, each slot is what the accepted fragments of its id make of it |
| AisStreams.LinesNonInterference | lib/aisparser/ais_decoder.cpp:845-1027 | in any stream of lines, what is done with the lines of one sequence id is what a decoder does that gets these lines alone |
| AisStreams.ToldNonInterference | lib/aisparser/ais_decoder.cpp:845-1027 | so is what the user is told at them, reports included, if the payloads decoded are settled |
| AisStreams.DecodeLines | lib/aisparser/ais_decoder.cpp:845-1027 | a new decoder tells its user, over a whole stream, what the functions of the stream say, and ends with their slots |
| Qmp6988.Qmp6988.GetPressure02e | lib/iictask/QMP6988.cpp:184-230 | for all calibrations and readings: every product and sum stays in 64 bits, the result in 32, and it is within 1.001 units of 1/16 Pa of the polynomial in the coefficients |
| Qmp6988.Qmp6988.ConvTx02e | lib/iictask/QMP6988.cpp:170-182 | all intermediate values stay in 64 bits; before the narrowing the result is within 1.07 units of the polynomial, and what is returned is so exactly if the result fits in 16 bits |
| Qmp6988.NarrowNear | lib/iictask/QMP6988.cpp:180-181 | a narrowed number stays near what it stood for exactly if nothing is cut off, and nothing is away from the ends of 16 bits |
| Qmp6988.TemperatureOutOfRange | lib/iictask/QMP6988.cpp:170-182 | there are coefficients and a reading for which no 16-bit result comes near the polynomial |
| Qmp6988.CoefficientRanges | lib/iictask/QMP6988.cpp:134-158 | how large the scaled coefficients can get over all calibration bytes |
| Qmp6988.WideCoefficient | lib/iictask/QMP6988.cpp:146-146 | a calibration for which `bt2` is 2^33 or more |
| Qmp6988.TermBt2 | lib/iictask/QMP6988.cpp:195-197 | the term whose product comes closest to 64 bits: bounds and rounding error |
| Qmp6988.TermBp3 | lib/iictask/QMP6988.cpp:218-221 | the cubic term: bounds and rounding error |
| Qmp6988.TermsOfPolynomial | lib/iictask/QMP6988.cpp:134-158 | the terms with their shifts are the monomials with the fraction bits the coefficients are declared with |
| Qmp6988.SignExtended20 | lib/iictask/QMP6988.cpp:76-80 | shifting up and down by 12 bits reads 20 bits in two's complement |
| Qmp6988.Qmp6988.GetCalibrationData | lib/iictask/QMP6988.cpp:61-158 | the coefficients are the two's complement fields of the 25 registers, each at its address, scaled; a failed read changes nothing |
| Qmp6988.RegistersReadBack | lib/iictask/QMP6988.cpp:69-131 | every calibration written to its registers is read back |
| Qmp6988.CoefficientsOfDataSheet | lib/iictask/QMP6988.cpp:134-158 | each coefficient is, with its fraction bits, the conversion A + S * OTP / 32767 that the data sheet gives for the register value, but for one unit of its scale and one for each unit of the register value |
| Qmp6988.TemperatureOfDataSheet | lib/iictask/QMP6988.cpp:134-182 | for all register values and readings the polynomial in these coefficients is within 1.51 units of 1/256 degrees of the polynomial of the data sheet |
| Qmp6988.PressureOfDataSheet | lib/iictask/QMP6988.cpp:134-230 | that of the pressure within 52.1 Pa |
| Qmp6988.RawReading | lib/iictask/QMP6988.cpp:314-320 | three bytes less 2^23, computed on unsigned words, is a signed 24-bit reading |
| Qmp6988.ReadingIs | lib/iictask/QMP6988.cpp:314-320 | the three bytes of a reading are high, middle and low, less 2^23 |
| Qmp6988.Qmp6988.CalcPressure | lib/iictask/QMP6988.cpp:303-334 | temperature and pressure from the six data registers: near the polynomials of the data sheet in the register values, for all of them; the temperature (within 2.58 units of 1/256 degrees) exactly if it fits in 16 bits |
| SetConfig.HandleBody | src/main.cpp:614-740 | for every body and every way of cutting it into chunks: the replies and stored values are those of the parameters of the whole body |
| SetConfig.ConfigRequest.HandleConfigRequestData | src/main.cpp:614-740 | one chunk, from any state, does what its bytes do one by one; the end of the body adds the reply |
| SetConfig.BytesMeanParameters | src/main.cpp:635-738 | the byte-by-byte automaton means names up to `=` and values up to `&` or the end |
| SetConfig.BuffersSuffice | src/main.cpp:635-684 | the bounded buffers read what unbounded ones would exactly if every name has at most 31 characters and every value at most 510, or 511 at the end of the body |
| SetConfig.LongNameCut | src/main.cpp:635-684 | a name of 32 characters is not read as it is |
| SetConfig.KeptWhole | src/main.cpp:638-644 | a full buffer is started again: what is kept is the whole text exactly if there is room for it |
| SetConfig.OneReply | src/main.cpp:688-739 | one reply, and it comes last; nothing is stored unless the first parameter is `_hash` and the password is right |
| SetConfig.Answers | src/main.cpp:688-739 | the replies word for word: when the hash is missing, when the password is invalid, and otherwise every further parameter stored in order and OK |
| SetConfig.WrittenReadBack | src/main.cpp:635-684 | parameters whose characters and lengths are allowed are read back as they were written |
| SetConfig.KeptIsRest | src/main.cpp:638-644 | of a text that is too long what is behind the last full buffer is kept |
| SetConfig.RunRestarted | src/main.cpp:638-644 | starting a full buffer again before or at the next byte is the same |
| SetConfig.ConfigRequest.ReadName | src/main.cpp:636-658 | the loop over name bytes, resumed or not |
| SetConfig.ConfigRequest.ReadValue | src/main.cpp:660-678 | the loop over value bytes, resumed or not |
| SetConfig.ConfigRequest.FinishParameter | src/main.cpp:685-720 | a complete parameter is checked or stored, or ends the request |
| GwBuffer.GwBuffer.AddData | lib/queue/GwBuffer.cpp:55-85 | in one or two runs: all of the data, what fits of it, or nothing |
| GwBuffer.GwBuffer.FillData | lib/queue/GwBuffer.cpp:108-134 | what a handler writes is appended, exactly as much as fits in one run, is asked for and is there |
| GwBuffer.GwBuffer.FetchData | lib/queue/GwBuffer.cpp:87-107 | what a handler takes is the front of the ring, exactly as much as is contiguous, asked for and taken |
| GwBuffer.CountIsGreatest | lib/queue/GwBuffer.cpp:87-134 | what a handler moves is the greatest number that exceeds neither what is there nor what is asked for nor what is taken |
| GwBuffer.ReadRunIsGreatest | lib/queue/GwBuffer.cpp:87-107 | the run to be read is all that is stored before the end of the memory |
| GwBuffer.FillRunIsGreatest | lib/queue/GwBuffer.cpp:108-134 | the run to be filled is all that may be stored before the end of the memory |
| GwBuffer.TwoRuns | lib/queue/GwBuffer.cpp:87-134 | two runs empty any ring and two fill it; a run is empty only if nothing is stored, or nothing is free |
| GwBuffer.GwBuffer.Read | lib/queue/GwBuffer.cpp:42-50 | the first byte, or -1 |
| GwBuffer.GwBuffer.Peek | lib/queue/GwBuffer.cpp:51-54 | the first byte stays |
| GwBuffer.GwBuffer.FindChar | lib/queue/GwBuffer.cpp:136-150 | the position of the first such byte, round the end of the memory, or -1 |
| GwBuffer.GwBuffer.FreeSpace | lib/queue/GwBuffer.cpp:29-35 | free and stored bytes add up to the size less one |
| GwBuffer.FetchMessageToBuffer | lib/queue/GwBuffer.cpp:153-182 | the first line is moved out whole and terminated, or nothing happens; the ring is thrown away exactly if it is full without a line or the line does not fit |
| GwBuffer.LinesOfFlatten | lib/queue/GwBuffer.cpp:153-182 | the lines of a stream are found however it is cut |
| GwBuffer.RunChannel | lib/queue/GwBuffer.cpp:29-182 | any run of additions, fills, single reads, fetches and line fetches: the result of each operation and what is stored at the end are exactly those of the run as a function, with the two laws below |
| GwBuffer.ChannelConserves | lib/queue/GwBuffer.cpp:29-182 | for every run, what was taken in since the ring was last thrown away is what was given out, followed by what is stored |
| GwBuffer.ChannelLines | lib/queue/GwBuffer.cpp:153-182 | while only lines are taken out, the lines fetched and those still stored are the lines of the bytes taken in |
| SerialLog.GwSerial.Write | lib/serial/GwSerial.cpp:89-103 | exactly what is contiguous, has room and is taken by the stream leaves the front of the ring |
| SerialLog.GwSerial.Flush | lib/serial/GwSerial.cpp:140-156 | for every behaviour of the hardware and the clock: when it succeeds, with an empty ring, when it fails, and what it leaves |
| SerialLog.FlushedExactly | lib/serial/GwSerial.cpp:140-156 | a flush succeeds exactly if the port is initialized, has room, and some number of writes empties the ring, the last of which begins before the timeout |
| SerialLog.WrittenLeaves | lib/serial/GwSerial.cpp:140-156 | what a flush leaves is what some number of writes leaves; if it fails, their time is over and the room is asked for again |
| SerialLog.ReadyFlush | lib/serial/GwSerial.cpp:140-156 | with hardware that has room and takes everything, two writes are enough |
| SerialLog.GwSerial.SendToClients | lib/serial/GwSerial.cpp:104-113 | a message from another source goes into the ring, exactly as much as fits if a part is wanted, else all or nothing, which is counted |
| SerialLog.GwSerialLog.Write | lib/channel/GwChannelList.cpp:88-98 | a record is logged whole or not at all |
| SerialLog.GwSerialLog.Drain | lib/channel/GwChannelList.cpp:104-110 | the drain loop terminates; how much it hands on and how each flush of the port went is that of draining as a function |
| SerialLog.DrainProgress | lib/channel/GwChannelList.cpp:104-110 | progress: draining ends with an empty log or a failed flush of the port, and each successful flush hands on as much as the ring of the port holds |
| SerialLog.GwSerialLog.Flush | lib/channel/GwChannelList.cpp:99-124 | what was handed to the port followed by the log buffer is what was logged; something is left exactly if the last flush of the port failed |
| MessageQueue.EveryStepKeeps | lib/queue/GwMessage.cxx:16-131 | every step of every task keeps the invariant of counts, mutexes, deletion and results |
| MessageQueue.CountIsHolders | lib/queue/GwMessage.cxx:95-124 | in every reachable state the count of a message is the number of its holders |
| MessageQueue.NoUseAfterDelete | lib/queue/GwMessage.cxx:16-39 | no step of any interleaving uses a deleted message |
| MessageQueue.ChangedIsTouched | lib/queue/GwMessage.cxx:16-131 | every action that changes or looks at the count, the semaphores or the result of a message is counted as using it |
| MessageQueue.DeletedExactlyOnce | lib/gwwebserver/GwWebServer.cpp:68-106 | a message is deleted at most once, and once as soon as nobody holds it: processed, queue full, or timed out and disconnected |
| MessageQueue.OkMeansProcessed | lib/queue/GwMessage.cxx:104-124 | after MSG_OK the result is complete; chunks sent after a timeout are a beginning of it, and all of it at the end |
| MessageQueue.SomebodyCanGoOn | lib/queue/GwMessage.cxx:16-39 | nobody waits for ever for the mutex of a message |
| MessageQueue.MainLoopCanGoOn | src/main.cpp:1041-1045 | the main loop can always fetch the next message or go on with the one it has, or the creator of that one can go on |
| MessageQueue.FirstInFirstOut | lib/queue/GwMessage.cxx:95-131 | in every run the messages put into the queue are those fetched, in the same order, followed by those that wait, of which there are at most 20 |
| MessageQueue.QueueNext | lib/queue/GwMessage.cxx:95-131 | sending fails exactly if 20 messages wait; nothing but sending and fetching changes the queue |
| MessageQueue.RefCall | lib/queue/GwMessage.cxx:33-38 | the steps of one call of ref add up to one more reference |
| MessageQueue.UnrefCall | lib/queue/GwMessage.cxx:16-32 | those of unref to one less, and to a deletion exactly if it was the last |
| MessageQueue.ProcessCall | lib/queue/GwMessage.cxx:56-71 | those of the main loop to a complete answer with nothing of it consumed, a notification, and one reference less |
| MessageQueue.ChunksSend | lib/queue/GwMessage.cxx:78-86 | calls with room for so many characters in all hand out that much of the answer once it is handled, and nothing before |
| MessageQueue.MainKeeps | src/main.cpp:1041-1045 | processing, notifying and releasing by the main loop keep the invariant of a message |
| Waypoints.WaypointMap.GetWaypointId | lib/nmea0183ton2k/NMEA0183DataToN2K.cpp:33-74 | a stored name keeps its number; a new one gets its own, or that of a least recently used name, which alone is forgotten |
| Waypoints.ReplacedKeeps | lib/nmea0183ton2k/NMEA0183DataToN2K.cpp:57-65 | eviction keeps numbers distinct and in 2 to 102 |
| Waypoints.NewKeeps | lib/nmea0183ton2k/NMEA0183DataToN2K.cpp:67-73 | a new name keeps the counter one ahead of at most 101 names, so that it never wraps |
| Waypoints.Oldest | lib/nmea0183ton2k/NMEA0183DataToN2K.cpp:59-63 | the loop over the map finds a least recently used name |
| Throttle.N2kSends.Send | lib/nmea0183ton2k/NMEA0183DataToN2K.cpp:75-95 | a message goes out exactly if its key was never sent or long enough ago |
| Throttle.N2kSends.MessagesInWindow | lib/nmea0183ton2k/NMEA0183DataToN2K.cpp:75-95 | at most T / d + 1 messages of a key in any time T |
| Throttle.SendsInWindow | lib/nmea0183ton2k/NMEA0183DataToN2K.cpp:85-89 | sends at least d apart are at most T / d + 1 in a window of length T |
| XdrBatch.XdrWriter.AddToXdr | lib/nmea2kto0183/N2kDataToNMEA0183.cpp:73-96 | an entry is taken exactly if none of its transducer was sent or the last one was sent at least the interval ago |
| XdrBatch.XdrWriter.Append | lib/nmea2kto0183/N2kDataToNMEA0183.cpp:80-95 | it goes into the open sentence exactly if there is room, else that one is sent and a new one begun with it |
| XdrBatch.XdrWriter.FinalizeXdr | lib/nmea2kto0183/N2kDataToNMEA0183.cpp:97-106 | an open sentence with entries is sent, and none stays open |
| XdrBatch.XdrWriter.HandleValues | lib/nmea2kto0183/N2kDataToNMEA0183.cpp:1267-1286 | of all values of a message, each at its time, exactly those due are taken, in order, and the sentences sent are theirs; none stays open |
| XdrBatch.TakenExactly | lib/nmea2kto0183/N2kDataToNMEA0183.cpp:73-79 | of the values of a message one becomes an entry exactly if the interval has gone by since the last entry of its transducer, in this message or before it |
| XdrBatch.SizeOfText | lib/nmea2kto0183/N2kDataToNMEA0183.cpp:86-94 | the size of a sentence is the length of its fields written with a comma in front of each |
| XdrBatch.SentencesTight | lib/nmea2kto0183/N2kDataToNMEA0183.cpp:86-94 | the sentences fit, hold the entries in order and once each, and none is closed that had room for the next entry |
| XdrBatch.AllSendable | lib/nmea2kto0183/N2kDataToNMEA0183.cpp:86-94 | no entry is lost exactly if each fits an empty sentence |
| XdrBatch.XdrWriter.EntriesInWindow | lib/nmea2kto0183/N2kDataToNMEA0183.cpp:74-79 | at most T / d + 1 entries of a transducer in any time T |
| Md5.MessageDigest | web/md5.js:108-181 | for every message the unrolled program computes the digest of RFC 1321 |
| Md5.OperationMeans | web/md5.js:31-50 | bit by bit what each operation adds: in the first round the second word where the first has a one, else the third; in the second round the first where the third has a one, else the second; then the parity; then the second differing from the first or not the third |
| Md5.StartBytes | web/md5.js:109-109 | the registers start with the sixteen bytes of section 3.3 in order |
| Md5.BlockMeans | web/md5.js:111-181 | a block adds to each register what its 64 operations make of it |
| Md5.PaddedBytes | web/md5.js:51-72 | the padded message byte by byte, and the length in bits in its last two words |
| Md5.AddUnsigned | web/md5.js:11-30 | addition modulo 2^32 |
| Md5.RotateLeft | web/md5.js:8-10 | a rotation |
| Md5.ConvertToWordArray | web/md5.js:51-72 | the padded message of sections 3.1 and 3.2 as little-endian words |
| Md5.ZeroCountIsLeast | web/md5.js:54-56 | the padding is the shortest that is allowed |
| Md5.PaddedInjective | web/md5.js:51-72 | different messages are padded differently |
| Md5.HighWordRight | web/md5.js:69-70 | the length is written right for messages below 2^32 bytes and for no longer ones |
| Md5.HighWordWrong | web/md5.js:69-70 | for 2^32 bytes the high word is 0 where it should be 8 |
| Md5.FourOperations | web/md5.js:113-116 | four assignments are four operations of section 3.4 with the registers back in place |
| Md5.HandleBlock | web/md5.js:111-181 | 64 unrolled assignments and four sums are one block of section 3.4 |

## Left out

- AisPosition.SendPosition: for message types 1 to 3, and those above 24, which are sent as 1; the encoder would write any other type as it is, and the decoder would take the fields for those of that type. AisPosition.SendClassB likewise is for type 18. That any payload sent in one sentence is reported as its type says is AisSentences.SendSentence.
- Conversions of speed, course, position, turn rate and dimensions from floating point: the model starts from integers already brought into range.
- The list of class B ships that supplies the name of Message 24: the name is a parameter; the cutting of that stored name in place is not modelled.
- The NMEA0183 and NMEA2000 libraries, which are not in the repository: a sentence is its fields with commas between them and a checksum, an XDR sentence a list of fields bounded by their characters. Which values a message has and how they are mapped to entries is the list given to XdrBatch.XdrWriter.HandleValues.
- AisDecoder.AisDecoder.DecodeMsg: requires that a sequence id is not negative, because the program then indexes its slots with it; the parser that finds the sentence in a line, and the counters, are not modelled.
- AisMessages.BodyDecoder.DecodeMobileAisMsg: the buffer has 320 bytes here, room for the whole words written for any payload of up to 410 characters; the array declared in `lib/aisparser/ais_decoder.h` (line 29) has 308, enough for payloads of up to 405 characters (AisDearmour.DeclaredArraySuffices).
- SetConfig.HandleBody: chunks are not empty, as a web server hands them over; the decoding of percent signs and the password check are one function of the value; the logger and the restart are not modelled.
- SerialLog.GwSerialLog.Flush: requires a port whose id is not -1, because the drain loop of the program would not end for such a port.
- Waits of messages are a success or a timeout; how long they take is not modelled. Memory ordering between processors is not modelled.
- Clocks are natural numbers; that a millisecond counter wraps after 49 days is not modelled.
- Md5.MessageDigest: for messages below 2^32 bytes, since Md5.HighWordRight shows that longer ones get a wrong length; the encoding of strings as UTF-8 and the output in hexadecimal are not modelled.
- The trimming of received lines and the routing to filters and counters behind the line fetcher.
- Wi-Fi, sockets, CAN driver, I2C transfers, displays, buttons, updates, the web pages and the build scripts.
