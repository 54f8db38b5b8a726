# rlp_01 RELP client — a Dafny model

This project models the client side of RELP, the Reliable Event Logging Protocol, as the
Java library rlp_01 implements it. On the wire every message is a frame of the form
`TXNR SP COMMAND SP DATALEN (SP DATA) LF`. The model covers these layers:

- **Text and buffers.** Java's `Integer.toString`/`Integer.parseInt` and the US-ASCII and
  UTF-8 codecs, written out on `seq<char>` and `seq<byte>`. A `ByteBuffer` class keeps an
  array with a position and a limit.
- **Frames** (`Frames`). The request frame `RelpFrameTX` is written into a buffer; its
  `length()` counts ahead of time. The response frame `RelpFrameRX` copies the decoder's
  buffer. The legacy `RelpResponse` has a text payload. The two response-code rules sit side
  by side.
- **The decoder** (`RelpParsing`). The `RelpParser` class keeps the Java fields and parses one
  byte at a time. Each of its methods is proved against `Step`, a pure transition on a
  `ParserView` value, and `Feed` runs `Step` over a byte sequence. `FrameRoundTrip` proves what
  `Feed` does with written frames and with malformed ones.
- **Transaction numbers, window and batch** (`TxIds`, `Windows`, `Batches`). These are
  classes over `int`, `map` and `set` fields. Their methods are specified by their effect on
  those fields and by the functions `Issue`, `Verification`, `VerifyAllOf` and `RetryOf`.
- **The session** (`Connections`, `Receiving`, `Acknowledgements`). `RelpConnection` has the
  states CLOSED, OPEN and COMMIT. The socket is a scripted `Transport` (`Transports`): opens,
  reads, write timeouts and close failures come from sequences fixed when it is made. `write`
  appends to a `sent` log, and every byte read is logged in `received`. Reading
  acknowledgements is proved against `AbsorbAll`, a pure fold of one step per received byte.
- **Client lifecycle** (`ManagedConnections`, `ClientDecorators`, `PoolConnections`,
  `ConnectionStubs`).
  - `ManagedRelpConnection` retries until delivery verifies. It runs over
    `ScriptedRelpConnection`, an `IRelpConnection` whose answers are scripted.
  - The rebinding and renewing decorators wrap `RecordedConnection` (`Delegates`). It stands
    for any `IManagedRelpConnection`: it logs every operation delegated to it and throws
    scripted exceptions.
  - `Pool` is generic over the pooled type.
  - The stub fails every operation.

Java exceptions are values of the `Exception` datatype. A method that can throw returns
`Option<Exception>`, or `Outcome<T>` (either `Ok(value)` or `Thrown(exception)`).

## Model


| member | source | states |
|---|---|---|
| Text.AsciiEncode | src/main/java/com/teragrep/rlp_01/RelpFrameTX.java:117-121 | `getBytes("US-ASCII")`: one byte per character, the character's own code below 128, `?` otherwise |
| Text.AsciiDecode | src/main/java/com/teragrep/rlp_01/AbstractRelpFrame.java:94 | `new String(bytes, US_ASCII)`: one character per byte, a replacement character for bytes of 128 and above |
| Text.AsciiRoundTrip | src/main/java/com/teragrep/rlp_01/AbstractRelpFrame.java:94 | decoding the US-ASCII encoding of an ASCII string gives the string back |
| Text.AsciiBytesRoundTrip | src/main/java/com/teragrep/rlp_01/AbstractRelpFrame.java:94 | encoding the decoding of ASCII bytes gives the bytes back |
| Text.Utf8DecodeAscii | src/main/java/com/teragrep/rlp_01/RelpFrameTX.java:133 | on ASCII bytes the UTF-8 decoding of `toString` agrees with the US-ASCII one |
| Text.ParseInt | src/main/java/com/teragrep/rlp_01/RelpParser.java:110 | `Integer.parseInt`: a result is always in the 32-bit range |
| Text.ParseIntToString | src/main/java/com/teragrep/rlp_01/RelpParser.java:110 | `parseInt(Integer.toString(n)) == n` for every 32-bit `n`, negative numbers included |
| Text.ParseIntRejectsNonNumeric | src/main/java/com/teragrep/rlp_01/RelpParser.java:149 | text starting with a character that is not a digit or a sign is a NumberFormatException |
| Text.DigitsValueOfNat | src/main/java/com/teragrep/rlp_01/RelpFrameTX.java:117 | the decimal digits written for `n` have the value `n` |
| Text.NumberBytesNoDelimiters | src/main/java/com/teragrep/rlp_01/RelpFrameTX.java:117-121 | a written number contains no SP and no LF, so it cannot end a header field early |
| Text.Wrap32 | src/main/java/com/teragrep/rlp_01/RelpFrameTX.java:83 | a sum of Java `int`s: the one `int` congruent to the exact sum modulo 2^32, the sum itself when it is in range |
| Text.NumberBytesDecode | src/main/java/com/teragrep/rlp_01/RelpFrameTX.java:117 | decoding a written number as US-ASCII gives its `Integer.toString` text |
| RelpCommands.KnownCommandsAreShort | src/main/java/com/teragrep/rlp_01/RelpCommand.java:25-30 | each of the six known commands has at most 11 characters |
| Buffers.ByteBuffer.Put | src/main/java/com/teragrep/rlp_01/RelpFrameTX.java:62 | one byte is stored at the position, and the position moves by one |
| Buffers.ByteBuffer.PutAll | src/main/java/com/teragrep/rlp_01/RelpFrameTX.java:99 | the bytes are appended after what was written, in order |
| Buffers.ByteBuffer.Get | src/main/java/com/teragrep/rlp_01/RelpConnection.java:257 | returns the first unread byte and consumes exactly it |
| Buffers.ByteBuffer.GetBytes | src/main/java/com/teragrep/rlp_01/AbstractRelpFrame.java:92-93 | consumes exactly `n` bytes when that many remain; otherwise BufferUnderflowException and nothing is consumed |
| Buffers.ByteBuffer.Flip | src/main/java/com/teragrep/rlp_01/RelpConnection.java:252 | what was written becomes what is unread |
| Buffers.ByteBuffer.Clear | src/main/java/com/teragrep/rlp_01/RelpConnection.java:175-176 | position 0, limit the capacity |
| Buffers.ByteBuffer.Compact | src/main/java/com/teragrep/rlp_01/RelpConnection.java:283 | the unread bytes move to the start and count as written, so a partial frame carries over to the next read |
| Buffers.AllocateDirect | src/main/java/com/teragrep/rlp_01/RelpParser.java:156 | a negative capacity is IllegalArgumentException; otherwise a fresh empty buffer of that capacity |
| Frames.FrameBytes | src/main/java/com/teragrep/rlp_01/RelpFrameTX.java:56-66 | a written frame is its body followed by exactly one LF |
| Frames.PrecomputedLength | src/main/java/com/teragrep/rlp_01/RelpFrameTX.java:68-84 | `length()` equals the bytes `write` emits when there is a payload, and is one more for a null payload |
| Frames.RelpFrameTX.constructor | src/main/java/com/teragrep/rlp_01/RelpFrameTX.java:43-46 | transaction number 0; `dataLength` is the payload length, or 0 for a null payload |
| Frames.RelpFrameTX.OfSyslog | src/main/java/com/teragrep/rlp_01/RelpFrameTX.java:39-41 | the payload-only constructor uses the command "syslog" |
| Frames.RelpFrameTX.OfCommand | src/main/java/com/teragrep/rlp_01/RelpFrameTX.java:48-50 | the command-only constructor has a null payload and length 0 |
| Frames.RelpFrameTX.SetTransactionNumber | src/main/java/com/teragrep/rlp_01/AbstractRelpFrame.java:86-88 | only the transaction number changes |
| Frames.RelpFrameTX.Length | src/main/java/com/teragrep/rlp_01/RelpFrameTX.java:68-84 | the 32-bit `int` sum: congruent modulo 2^32 to the exact count; while that count fits in an `int`, never less than the bytes written and equal to them exactly when the payload is not null |
| Frames.RelpFrameTX.Write | src/main/java/com/teragrep/rlp_01/RelpFrameTX.java:56-66 | appends `txn SP command SP datalen`, then `SP data` for a non-null payload, then LF |
| Frames.RelpFrameTX.PutHeader | src/main/java/com/teragrep/rlp_01/RelpFrameTX.java:113-125 | appends the three header fields as US-ASCII, separated by single spaces |
| Frames.RelpFrameTX.PutData | src/main/java/com/teragrep/rlp_01/RelpFrameTX.java:93-104 | appends SP and the payload, or nothing for a null payload |
| Frames.RequestTextMatchesWire | src/main/java/com/teragrep/rlp_01/RelpFrameTX.java:131-137 | for ASCII content, `toString` of a request is its wire form without the final LF |
| Frames.OpenRequestText | src/test/java/com/teragrep/rlp_01/RelpFrameTXTest.java:45-49 | the text the constructor test expects: a fresh OPEN request without a payload reads "0 open 0 " |
| Frames.RelpFrameRX.constructor | src/main/java/com/teragrep/rlp_01/RelpFrameRX.java:32-36 | sets the three header fields; the data is all remaining bytes of the source, whatever `dataLength` says, and the source is used up |
| Frames.RelpFrameRX.GetResponseCode | src/main/java/com/teragrep/rlp_01/RelpFrameRX.java:69-96 | the byte loop with its three-byte code agrees with the rule `ResponseCode` |
| Frames.ResponseCodeValue | src/main/java/com/teragrep/rlp_01/RelpFrameRX.java:74-95 | a code is found exactly when the data starts with three ASCII digits and a space; the code is their value, in 0..999; every failure is IllegalArgumentException |
| Frames.ResponseTextMatchesWire | src/main/java/com/teragrep/rlp_01/RelpFrameRX.java:47-60 | for ASCII content, `toString` of a response frame is its wire form, LF included |
| Frames.ReadString | src/main/java/com/teragrep/rlp_01/AbstractRelpFrame.java:90-98 | null for `dataLength <= 0`; otherwise exactly `dataLength` bytes decoded as US-ASCII, or BufferUnderflowException when fewer remain |
| Frames.RelpResponse.constructor | src/main/java/com/teragrep/rlp_01/AbstractRelpFrame.java:72-76 | the three-field header constructor sets every header field |
| Frames.NewRelpResponse | src/main/java/com/teragrep/rlp_01/RelpResponse.java:64-71 | the payload is what `readString` reads, and its exception propagates out of the constructor |
| Frames.IndexOf | src/main/java/com/teragrep/rlp_01/RelpResponse.java:90 | `indexOf(' ')`: the first occurrence, or -1 exactly when there is none |
| Frames.LegacyResponseCode | src/main/java/com/teragrep/rlp_01/RelpResponse.java:89-92 | a null payload is a NullPointerException and a payload without a space an index error; a code is `parseInt` of the text before the first space |
| Frames.LegacyTextMatchesWire | src/main/java/com/teragrep/rlp_01/RelpResponse.java:73-87 | `toString` of a legacy response is the frame text with " payload LF" only when there is a payload, else the bare header |
| Frames.ResponseCodeRulesAgree | src/main/java/com/teragrep/rlp_01/RelpResponse.java:89-92 | wherever the frame rule finds a code, the legacy rule finds the same code |
| Frames.FrameRuleRefusesFourDigits | src/main/java/com/teragrep/rlp_01/RelpFrameRX.java:82-84 | "2000 OK" is "response code too long" for a response frame |
| Frames.LegacyRuleAcceptsFourDigits | src/main/java/com/teragrep/rlp_01/RelpResponse.java:89-92 | the same payload has code 2000 for the legacy response |
| RelpParsing.RelpParser.constructor | src/main/java/com/teragrep/rlp_01/RelpParser.java:42-55 | state TXN, not complete, empty field strings, txn and length -1, no frame buffer |
| RelpParsing.RelpParser.Reset | src/main/java/com/teragrep/rlp_01/RelpConnection.java:274 | back to exactly the constructor's state, frame buffer dropped |
| RelpParsing.RelpParser.Parse | src/main/java/com/teragrep/rlp_01/RelpParser.java:106-216 | one byte moves the fields exactly as the transition `Step` says, and throws what `Step` says |
| RelpParsing.RelpParser.ParseTxn | src/main/java/com/teragrep/rlp_01/RelpParser.java:108-119 | TXN state: SP parses the accumulated text and moves to COMMAND; any other byte is appended |
| RelpParsing.RelpParser.ParseCommand | src/main/java/com/teragrep/rlp_01/RelpParser.java:120-140 | COMMAND state: SP moves to LENGTH and then applies the command check; any other byte is appended |
| RelpParsing.RelpParser.ParseLength | src/main/java/com/teragrep/rlp_01/RelpParser.java:141-180 | LENGTH state: SP or LF parses the length and allocates the frame buffer; any other byte is appended |
| RelpParsing.RelpParser.AllocateFrame | src/main/java/com/teragrep/rlp_01/RelpParser.java:149-175 | a negative length fails in the allocation; a zero length goes to NL, and is complete at once after LF; otherwise DATA |
| RelpParsing.RelpParser.ParseData | src/main/java/com/teragrep/rlp_01/RelpParser.java:181-200 | DATA state: stores the byte while length is left, and flips the buffer and moves to NL when none is left |
| RelpParsing.RelpParser.ParseNewline | src/main/java/com/teragrep/rlp_01/RelpParser.java:201-212 | NL state: LF completes the frame; any other byte is "relp frame parsing failure" |
| RelpParsing.FeedConcat | src/main/java/com/teragrep/rlp_01/RelpConnection.java:256-257 | feeding two byte runs is feeding the first, then the second unless the first failed |
| RelpParsing.FeedText | src/main/java/com/teragrep/rlp_01/RelpParser.java:117-178 | bytes without SP or LF only extend the current header field |
| RelpParsing.FeedData | src/main/java/com/teragrep/rlp_01/RelpParser.java:185-199 | DATA copies exactly the announced number of bytes, verbatim, whatever they are, then moves to NL |
| RelpParsing.CommandCheck | src/main/java/com/teragrep/rlp_01/RelpParser.java:127-135 | at the command delimiter the decoder fails with "Invalid COMMAND." exactly when the command is longer than 11 characters |
| RelpParsing.ZeroLengthDelimiter | src/main/java/com/teragrep/rlp_01/RelpParser.java:148-171 | after DATALEN 0 both delimiters lead to NL with an empty buffer; only LF completes the frame |
| RelpParsing.NegativeLengthRejected | src/main/java/com/teragrep/rlp_01/RelpParser.java:156 | a negative DATALEN fails with IllegalArgumentException from the allocation, after the length fields were set |
| RelpParsing.NonNumericRejected | src/main/java/com/teragrep/rlp_01/RelpParser.java:110-149 | a delimiter after non-numeric TXNR or DATALEN text is a NumberFormatException and changes nothing |
| RelpParsing.CompleteFrameIsStable | src/main/java/com/teragrep/rlp_01/RelpParser.java:201-211 | once complete, LF bytes change nothing, and any other byte is "relp frame parsing failure" |
| RelpParsing.OverlongDataRejected | src/main/java/com/teragrep/rlp_01/RelpParser.java:185-211 | a byte other than LF after the announced data is "relp frame parsing failure" |
| FrameRoundTrip.WrittenRequestParses | src/main/java/com/teragrep/rlp_01/RelpFrameTX.java:56-66 | decoding the bytes `write` emits for a frame with a well-formed command gives back its transaction number, command, length and payload, and is complete |
| FrameRoundTrip.ParseWrittenFrame | src/main/java/com/teragrep/rlp_01/RelpParser.java:106-216 | the same for a frame given by its fields, for a null payload too |
| FrameRoundTrip.ParseCommandPrefix | src/main/java/com/teragrep/rlp_01/RelpParser.java:108-140 | "txn SP command SP" reaches LENGTH with those fields; an over-long command fails there |
| FrameRoundTrip.NonNumericTxnRejected | src/main/java/com/teragrep/rlp_01/RelpParser.java:110 | a frame beginning with non-numeric TXNR text fails with NumberFormatException at the first SP |
| FrameRoundTrip.NonNumericLengthRejected | src/main/java/com/teragrep/rlp_01/RelpParser.java:149 | non-numeric DATALEN text fails with NumberFormatException at its delimiter |
| FrameRoundTrip.NegativeLengthFrameRejected | src/main/java/com/teragrep/rlp_01/RelpParser.java:156 | a negative DATALEN fails in the allocation, and a negative TXNR is accepted before it |
| FrameRoundTrip.OverlongFrameRejected | src/main/java/com/teragrep/rlp_01/RelpParser.java:201-211 | more data than announced fails at the first extra byte |
| FrameRoundTrip.TrailingBytesAfterFrame | src/main/java/com/teragrep/rlp_01/RelpParser.java:201-211 | after a complete frame, trailing LFs keep it complete and unchanged, and anything else fails |
| FrameRoundTrip.HappyPathFrame | src/main/java/com/teragrep/rlp_01/RelpParser.java:106-216 | "2 rsp 6 200 OK\n" gives txn 2, command "rsp", length 6, data "200 OK", complete |
| FrameRoundTrip.UnknownShortCommandAccepted | src/main/java/com/teragrep/rlp_01/RelpParser.java:127-135 | a frame with the unknown command "horse" is accepted and completes |
| FrameRoundTrip.ZeroLengthCommandFrame | src/main/java/com/teragrep/rlp_01/RelpParser.java:160-171 | "0 open 0\n", "0 close 0\n" and every other "0 cmd 0\n" complete at the LF with an empty buffer |
| FrameRoundTrip.SevenRejected | src/main/java/com/teragrep/rlp_01/RelpParser.java:110 | "Seven ..." fails with NumberFormatException |
| FrameRoundTrip.SixRejected | src/main/java/com/teragrep/rlp_01/RelpParser.java:149 | "0 rsp six ..." fails with NumberFormatException |
| FrameRoundTrip.NegativeLengthExample | src/main/java/com/teragrep/rlp_01/RelpParser.java:156 | "-2 rsp -6 ..." fails in the allocation, with txn -2 already parsed |
| TxIds.Issue | src/main/java/com/teragrep/rlp_01/TxID.java:34-39 | the returned number is in [1, MAX_ID-1]; MAX_ID wraps to 1 |
| TxIds.TxID.constructor | src/main/java/com/teragrep/rlp_01/TxID.java:30-32 | a fresh counter holds 1 |
| TxIds.TxID.GetNextTransactionIdentifier | src/main/java/com/teragrep/rlp_01/TxID.java:34-39 | returns `Issue` of the stored value and stores one more than it |
| TxIds.IssuedFirstRound | src/main/java/com/teragrep/rlp_01/TxID.java:30-39 | a fresh counter's k-th call returns k+1 until the wrap |
| TxIds.NextIssued | src/main/java/com/teragrep/rlp_01/TxID.java:35-38 | successive calls return consecutive numbers, and 999999998 is followed by 1 |
| TxIds.IssuedPeriodic | src/main/java/com/teragrep/rlp_01/TxID.java:28-38 | the sequence repeats every MAX_ID-1 calls, so 999999999 is never returned |
| Windows.RelpWindow.constructor | src/main/java/com/teragrep/rlp_01/RelpWindow.java:26-28 | a new window is empty |
| Windows.RelpWindow.PutPending | src/main/java/com/teragrep/rlp_01/RelpWindow.java:31-33 | the txn is pending for this id, an already present txn is overwritten with the size unchanged, and other entries are left alone |
| Windows.RelpWindow.IsPending | src/main/java/com/teragrep/rlp_01/RelpWindow.java:35-37 | true exactly when `getPending` finds an entry |
| Windows.RelpWindow.GetPending | src/main/java/com/teragrep/rlp_01/RelpWindow.java:39-41 | the stored id, or none (null) for an absent txn |
| Windows.RelpWindow.RemovePending | src/main/java/com/teragrep/rlp_01/RelpWindow.java:43 | the txn is no longer pending, other entries are unchanged, and the size drops by one if it was present |
| Windows.RelpWindow.Size | src/main/java/com/teragrep/rlp_01/RelpWindow.java:45-47 | the number of distinct pending txns |
| Batches.RelpBatch.constructor | src/main/java/com/teragrep/rlp_01/RelpBatch.java:39-44 | empty maps and an empty work queue; the first id will be 0 |
| Batches.RelpBatch.Insert | src/main/java/com/teragrep/rlp_01/RelpBatch.java:55-58 | a new syslog frame under the next id (0, 1, 2, ...) holding the payload as given, null included (data length 0), stored and queued, with nothing else changed |
| Batches.RelpBatch.PutRequest | src/main/java/com/teragrep/rlp_01/RelpBatch.java:68-73 | the frame under a fresh id, stored and queued |
| Batches.RelpBatch.GetRequest | src/main/java/com/teragrep/rlp_01/RelpBatch.java:75-77 | the stored frame, or none (null) for an unknown id |
| Batches.RelpBatch.RemoveRequest | src/main/java/com/teragrep/rlp_01/RelpBatch.java:79-82 | the id leaves the requests and the work queue; its response stays |
| Batches.RelpBatch.GetResponse | src/main/java/com/teragrep/rlp_01/RelpBatch.java:84-86 | the stored response, or none (null) for an unknown id |
| Batches.RelpBatch.PutResponse | src/main/java/com/teragrep/rlp_01/RelpBatch.java:88-92 | stores the response only for a known request; otherwise nothing changes |
| Batches.Verification | src/main/java/com/teragrep/rlp_01/RelpBatch.java:94-98 | verified exactly when the request exists, a response exists and its code is 200; a throw comes only from a malformed response |
| Batches.RelpBatch.VerifyTransaction | src/main/java/com/teragrep/rlp_01/RelpBatch.java:94-98 | computes `Verification` for the id |
| Batches.RelpBatch.VerifyTransactionAll | src/main/java/com/teragrep/rlp_01/RelpBatch.java:100-108 | the loop over the request ids computes `VerifyAllOf` |
| Batches.VerifyAllMeaning | src/main/java/com/teragrep/rlp_01/RelpBatch.java:100-108 | all verify exactly when every id verifies, vacuously for none; a throw comes from one of the ids |
| Batches.RelpBatch.RetryAllFailed | src/main/java/com/teragrep/rlp_01/RelpBatch.java:110-117 | the loop adds `RetryOf`'s ids to the work queue and leaves both maps alone |
| Batches.RelpBatch.RetryIfFailed | src/main/java/com/teragrep/rlp_01/RelpBatch.java:113-115 | a known request goes back on the work queue exactly when it does not verify; an exception from its response code is returned and nothing is queued |
| Batches.RetryMeaning | src/main/java/com/teragrep/rlp_01/RelpBatch.java:110-129 | the ids retried are exactly the requests that do not verify |
| Batches.RelpBatch.RemoveTransaction | src/main/java/com/teragrep/rlp_01/RelpBatch.java:119-122 | the id leaves the requests and the responses but not the work queue |
| Batches.RelpBatch.RetryRequest | src/main/java/com/teragrep/rlp_01/RelpBatch.java:125-129 | a known id joins the work-queue set, where a second add changes nothing; an unknown id is ignored |
| Batches.RelpBatch.GetWorkQueueLength | src/main/java/com/teragrep/rlp_01/RelpBatch.java:131-133 | the size of the work-queue set |
| Batches.RelpBatch.PopWorkQueue | src/main/java/com/teragrep/rlp_01/RelpBatch.java:135-137 | the smallest queued id, removed, the length one less; none (null) exactly when the queue is empty |
| Transports.Transport.Read | src/main/java/com/teragrep/rlp_01/RelpConnection.java:249 | reads the next scripted chunk into the buffer, with no more than the room left, and logs it; fails before open, after close, or as scripted |
| Transports.Transport.Write | src/main/java/com/teragrep/rlp_01/RelpConnection.java:298-302 | the unread bytes are sent and logged, unless the channel is not open or the write times out |
| Transports.Transport.Close | src/main/java/com/teragrep/rlp_01/RelpConnection.java:167-177 | closing a socket that was never opened is a NullPointerException; otherwise the channel is closed, with a scripted IOException possible |
| Connections.RelpConnection.constructor | src/main/java/com/teragrep/rlp_01/RelpConnection.java:119-126 | CLOSED, with a 512-byte receive and a 262144-byte transmit buffer |
| Connections.RelpConnection.SetRxBufferSize | src/main/java/com/teragrep/rlp_01/RelpConnection.java:87-94 | IllegalStateException unless CLOSED; a negative size fails in the allocation; otherwise a fresh buffer of that size |
| Connections.RelpConnection.SetTxBufferSize | src/main/java/com/teragrep/rlp_01/RelpConnection.java:100-107 | the same for the transmit buffer |
| Connections.RelpConnection.TearDown | src/main/java/com/teragrep/rlp_01/RelpConnection.java:167-177 | CLOSED from any state, buffers cleared, an IOException from the close swallowed; a never-opened socket throws NullPointerException before anything changes |
| Connections.RelpConnection.SendRelpRequestAsync | src/main/java/com/teragrep/rlp_01/RelpConnection.java:287-303 | the frame goes through a buffer of `length()` bytes when that exceeds the transmit buffer's size, else through the transmit buffer; a frame longer than the buffer chosen is a BufferOverflowException with nothing written; otherwise exactly the frame's bytes go to the socket unless the write throws; the transmit buffer ends cleared |
| Connections.SendFitsUnlessWrapped | src/main/java/com/teragrep/rlp_01/RelpConnection.java:287-295 | while `length()` has not wrapped round, the buffer chosen always holds the frame, so only the write can throw |
| Connections.SendOverflowsWhenWrapped | src/main/java/com/teragrep/rlp_01/RelpConnection.java:287-295 | a frame whose exact length is past 2^31 - 1 gets a negative `length()`, goes to the transmit buffer and, when longer than it, is a BufferOverflowException |
| Connections.RelpConnection.SendOne | src/main/java/com/teragrep/rlp_01/RelpConnection.java:225-233 | one popped request gets the next transaction number and a window entry before its bytes are written; a missing request is a NullPointerException; a present one throws what `sendRelpRequestAsync` throws for its stamped frame |
| Connections.RelpConnection.PopFrom | src/main/java/com/teragrep/rlp_01/RelpConnection.java:225 | the least id leaves the work queue; the connection, the request map and the responses are untouched |
| Connections.RelpConnection.SendNext | src/main/java/com/teragrep/rlp_01/RelpConnection.java:224-234 | one turn of the sending loop shrinks the queue and keeps the loop's view of stamped ids, numbers, window and sent bytes |
| Connections.RelpConnection.SendPopped | src/main/java/com/teragrep/rlp_01/RelpConnection.java:226-233 | stamping the popped id and writing its frame extends the ids, numbers, window and sent bytes of the loop by that one request |
| Connections.Transmit | src/main/java/com/teragrep/rlp_01/RelpConnection.java:295-303 | the socket receives exactly the frame's bytes unless the write fails; the buffer is left cleared |
| Connections.Stage | src/main/java/com/teragrep/rlp_01/RelpConnection.java:295-297 | the frame written into the empty buffer is exactly what the flipped buffer holds for reading |
| Connections.RelpConnection.SendQueued | src/main/java/com/teragrep/rlp_01/RelpConnection.java:224-234 | the queued ids go out in increasing order with consecutive transaction numbers, all recorded in the window; the socket received exactly their frames; the queue ends empty |
| Connections.RelpConnection.SendBatch | src/main/java/com/teragrep/rlp_01/RelpConnection.java:220-236 | every queued request is stamped, recorded and written before any acknowledgement is read; the replies read are then absorbed as `AbsorbAll` says |
| Connections.RelpConnection.ReadAcks | src/main/java/com/teragrep/rlp_01/RelpConnection.java:240-285 | the bytes fed to the decoder are exactly the bytes received; on a normal return the window is empty and the responses stored are those `AbsorbAll` gives |
| Connections.RelpConnection.Connect | src/main/java/com/teragrep/rlp_01/RelpConnection.java:144-165 | IllegalStateException unless CLOSED; a fresh counter and window, so the OPEN frame with the offer is stamped 1; OPEN exactly when that response verifies |
| Connections.RelpConnection.Renew | src/main/java/com/teragrep/rlp_01/RelpConnection.java:150-151 | a fresh transaction counter at 1 and an empty window |
| Connections.RelpConnection.Offer | src/main/java/com/teragrep/rlp_01/RelpConnection.java:156-164 | the OPEN batch is exchanged, and the state becomes OPEN exactly on a verified response |
| Connections.RelpConnection.ExchangeOffer | src/main/java/com/teragrep/rlp_01/RelpConnection.java:156-159 | the OPEN request with the offer is sent as transaction 1 and its reply absorbed into a fresh batch |
| Connections.RelpConnection.OpenIfVerified | src/main/java/com/teragrep/rlp_01/RelpConnection.java:160-164 | the result is `verifyTransaction` of request 0; the state becomes OPEN exactly when it is true |
| Connections.RelpConnection.Exchange | src/main/java/com/teragrep/rlp_01/RelpConnection.java:156-159 | a one-request batch is sent with the next transaction number and its reply absorbed; `disconnect` does the same with CLOSE at lines 188-191 |
| Connections.RelpConnection.Disconnect | src/main/java/com/teragrep/rlp_01/RelpConnection.java:184-202 | IllegalStateException unless OPEN; succeeds exactly when a CLOSE response with data length 0 arrived, and then the socket is closed and the state CLOSED; otherwise it stays OPEN |
| Connections.RelpConnection.Hangup | src/main/java/com/teragrep/rlp_01/RelpConnection.java:192-201 | the decision on the CLOSE response: close the socket and go CLOSED, or return false with nothing changed |
| Connections.RelpConnection.CloseExchanged | src/main/java/com/teragrep/rlp_01/RelpConnection.java:198 | the socket is closed, or the close exception is its NullPointerException or IOException; what was exchanged is kept |
| Connections.RelpConnection.Commit | src/main/java/com/teragrep/rlp_01/RelpConnection.java:204-211 | IllegalStateException unless OPEN; sends the batch in COMMIT; back to OPEN on a normal return, left in COMMIT when it throws |
| Connections.RelpConnection.SendCommitted | src/main/java/com/teragrep/rlp_01/RelpConnection.java:209-210 | the batch is sent as `SendBatch` says; the state is OPEN again after a normal return and unchanged after an exception |
| Acknowledgements.Acknowledge | src/main/java/com/teragrep/rlp_01/RelpConnection.java:259-278 | a complete frame with a pending txn becomes its request's response and leaves the window; an unknown txn is dropped; the decoder is reset |
| Acknowledgements.Absorb | src/main/java/com/teragrep/rlp_01/RelpConnection.java:256-279 | one received byte: the decoder's step, and an acknowledgement when it completes a frame |
| Acknowledgements.AbsorbAll | src/main/java/com/teragrep/rlp_01/RelpConnection.java:256-279 | a failure while absorbing is only a decoder exception (number format, illegal argument or illegal state) |
| Acknowledgements.AbsorbAllConcat | src/main/java/com/teragrep/rlp_01/RelpConnection.java:247-284 | absorbing two reads is absorbing the first, then the second, so a frame may be split across reads |
| Acknowledgements.AbsorbIncomplete | src/main/java/com/teragrep/rlp_01/RelpConnection.java:256-259 | bytes of an unfinished frame feed only the decoder; the window and responses do not change |
| Acknowledgements.AbsorbReply | src/main/java/com/teragrep/rlp_01/RelpConnection.java:256-274 | a whole well-formed reply acknowledges its txn: the pending request gets the reply's fields and payload |
| Acknowledgements.AbsorbStream | src/main/java/com/teragrep/rlp_01/RelpConnection.java:247-284 | a stream of well-formed replies acknowledges them one after another |
| Acknowledgements.AcknowledgeAllPending | src/main/java/com/teragrep/rlp_01/RelpConnection.java:271 | after the replies, exactly the txns none of them carried are still pending |
| Acknowledgements.RepliesEmptyWindow | src/main/java/com/teragrep/rlp_01/RelpConnection.java:245-278 | replies that cover every pending txn empty the window, the condition on which reading stops |
| Acknowledgements.AbsorbAllStored | src/main/java/com/teragrep/rlp_01/RelpConnection.java:261-271 | a response is stored only for a known request that was pending under the response's own txn |
| Receiving.ReadAcks | src/main/java/com/teragrep/rlp_01/RelpConnection.java:240-285 | the read-flip-parse-compact loop consumes exactly the received bytes and ends as `AbsorbAll` over them |
| Receiving.Turn | src/main/java/com/teragrep/rlp_01/RelpConnection.java:247-284 | one turn of the outer loop keeps every received byte either fed or buffered and what was fed absorbed; a read exception keeps the state, a parse exception ends the feed at its byte |
| Receiving.ReadOnce | src/main/java/com/teragrep/rlp_01/RelpConnection.java:249-283 | one read and what follows it: the bytes fed are absorbed as `AbsorbAll` says; a read exception feeds nothing and changes no session state |
| Receiving.Consume | src/main/java/com/teragrep/rlp_01/RelpConnection.java:255-283 | after a read of `n` bytes the unread bytes are absorbed, and the buffer compacted unless a parse exception escaped |
| Receiving.Fill | src/main/java/com/teragrep/rlp_01/RelpConnection.java:249-252 | one read appends the received bytes after the carried-over ones, then flips the buffer |
| Receiving.Drain | src/main/java/com/teragrep/rlp_01/RelpConnection.java:256-280 | the inner loop absorbs the unread bytes and stops early exactly when the window empties |
| Receiving.HandleByte | src/main/java/com/teragrep/rlp_01/RelpConnection.java:257-279 | one byte is parsed and, when it completes a frame, acknowledged |
| Receiving.ParseNext | src/main/java/com/teragrep/rlp_01/RelpConnection.java:257 | the next unread byte goes to the decoder, which moves as `Step` says |
| Receiving.CompleteIfDone | src/main/java/com/teragrep/rlp_01/RelpConnection.java:259-279 | a byte that completed a frame without exception leads to its acknowledgement; `stop` exactly when the window is then empty; otherwise nothing changes |
| Receiving.Complete | src/main/java/com/teragrep/rlp_01/RelpConnection.java:259-274 | a completed frame is acknowledged as `Acknowledge` says and the decoder reset |
| Receiving.Store | src/main/java/com/teragrep/rlp_01/RelpConnection.java:261-272 | a pending number gives the window entry and the stored response exactly as `Acknowledge` says; any other number changes nothing |
| Receiving.PutStored | src/main/java/com/teragrep/rlp_01/RelpConnection.java:270 | the response is stored under a known request id, and the stored acknowledgements track it |
| ManagedConnections.ScriptedRelpConnection.TearDown | src/main/java/com/teragrep/rlp_01/client/ManagedRelpConnection.java:70-78 | the underlying `tearDown` throws NullPointerException when the connection never connected |
| ManagedConnections.ScriptedRelpConnection.Commit | src/main/java/com/teragrep/rlp_01/client/IRelpConnection.java:54 | a commit empties the work queue, stores the scripted answers of queued known requests, and throws what the script says |
| ManagedConnections.AttemptsMeaning | src/main/java/com/teragrep/rlp_01/client/ManagedRelpConnection.java:47-68 | the loop connects exactly when one of the attempts allowed returns true; every attempt before the last failed |
| ManagedConnections.EnoughAttemptsConnect | src/main/java/com/teragrep/rlp_01/client/ManagedRelpConnection.java:47-68 | once the scripted failures run out, the loop connects |
| ManagedConnections.ManagedRelpConnection.constructor | src/main/java/com/teragrep/rlp_01/client/ManagedRelpConnection.java:30-33 | not yet connected |
| ManagedConnections.ManagedRelpConnection.Connect | src/main/java/com/teragrep/rlp_01/client/ManagedRelpConnection.java:47-68 | `hasConnected` is set before the first attempt; the underlying connect is repeated until it returns true, exceptions swallowed |
| ManagedConnections.ManagedRelpConnection.TearDown | src/main/java/com/teragrep/rlp_01/client/ManagedRelpConnection.java:70-78 | calls the underlying `tearDown` only when `hasConnected` |
| ManagedConnections.VerifyAllThrowsIllegalArgument | src/main/java/com/teragrep/rlp_01/RelpBatch.java:100-108 | verifying all can throw only IllegalArgumentException, which the retry loop does not catch |
| ManagedConnections.RoundMeaning | src/main/java/com/teragrep/rlp_01/client/ManagedRelpConnection.java:90-103 | a round ends sent exactly when the commit's exception, if any, is of the swallowed kinds and every request verifies; a failed round queues again exactly the requests whose response is missing or not 200, and at least one |
| ManagedConnections.DeliverExhausted | src/main/java/com/teragrep/rlp_01/client/ManagedRelpConnection.java:88-104 | when the loop gives up, either every one of its rounds made exactly one commit, or it stopped earlier right after a commit, a tear-down and `fuel` connect attempts none of which succeeded, so no commit follows a failed reconnect |
| ManagedConnections.DeliverVerified | src/main/java/com/teragrep/rlp_01/client/ManagedRelpConnection.java:88-104 | when the loop returns normally, every request verifies against the responses it left |
| ManagedConnections.DeliverAnsweredAll | src/main/java/com/teragrep/rlp_01/client/ManagedRelpConnection.java:88-104 | a first commit whose peer answers every request with code 200 ends the loop in one round with exactly one commit call and those answers stored |
| ManagedConnections.ManagedRelpConnection.EnsureSent | src/main/java/com/teragrep/rlp_01/client/ManagedRelpConnection.java:80-105 | connects first when never connected (the first call is a connect), and returns without committing when that connect does not succeed; then the result, the batch's responses and work queue and the wrapped connection's call log are exactly those of `Deliver`: rounds of commit, then `retryAllFailed`, `tearDown` and `connect` while the batch does not verify, stopping when a reconnect does not succeed; a returned `true` means every request verifies |
| ManagedConnections.ManagedRelpConnection.SendRounds | src/main/java/com/teragrep/rlp_01/client/ManagedRelpConnection.java:87-104 | the `while (notSent)` loop, which commits only over a connection that connected: its result and the state it leaves are exactly `Deliver` of the state it starts from |
| ManagedConnections.ManagedRelpConnection.SendRound | src/main/java/com/teragrep/rlp_01/client/ManagedRelpConnection.java:90-103 | one round is exactly `Round`: the call log gains a commit, and after a failed verification also a tear-down and the connect attempts; the work queue becomes exactly the requests `retryAllFailed` queues; a commit exception other than I/O, timeout or state escapes; after a failed verification it reports whether the reconnect succeeded |
| ManagedConnections.ManagedRelpConnection.EnsureSentBytes | src/main/java/com/teragrep/rlp_01/client/ManagedRelpConnection.java:107-112 | sends a fresh batch holding exactly that one syslog payload, null included |
| ManagedConnections.ManagedRelpConnection.IsStub | src/main/java/com/teragrep/rlp_01/client/ManagedRelpConnection.java:114-117 | false |
| ManagedConnections.ManagedRelpConnection.Close | src/main/java/com/teragrep/rlp_01/client/ManagedRelpConnection.java:119-130 | tries `disconnect`, swallows its exceptions, and always runs the guarded `tearDown` |
| ManagedConnections.ManagedRelpConnection.ForceReconnect | src/main/java/com/teragrep/rlp_01/client/ManagedRelpConnection.java:35-39 | the guarded `tearDown`, then `connect` |
| ManagedConnections.ManagedRelpConnection.Reconnect | src/main/java/com/teragrep/rlp_01/client/ManagedRelpConnection.java:41-45 | `close`, then `connect` |
| Delegates.RecordedConnection.Perform | src/main/java/com/teragrep/rlp_01/client/RebindableRelpConnection.java:34-47 | a delegated operation is recorded and throws what the script says |
| ClientDecorators.RebindableRelpConnection.constructor | src/main/java/com/teragrep/rlp_01/client/RebindableRelpConnection.java:28-32 | `recordsSent` starts at 0 |
| ClientDecorators.RebindableRelpConnection.Reconnect | src/main/java/com/teragrep/rlp_01/client/RebindableRelpConnection.java:34-37 | delegates unchanged |
| ClientDecorators.RebindableRelpConnection.Connect | src/main/java/com/teragrep/rlp_01/client/RebindableRelpConnection.java:39-42 | delegates unchanged |
| ClientDecorators.RebindableRelpConnection.ForceReconnect | src/main/java/com/teragrep/rlp_01/client/RebindableRelpConnection.java:44-47 | delegates unchanged |
| ClientDecorators.RebindableRelpConnection.EnsureSent | src/main/java/com/teragrep/rlp_01/client/RebindableRelpConnection.java:56-65 | at or past the threshold it calls `reconnect` (not `forceReconnect`) and restarts the count at 0; after a normal send the count grows by the work-queue length measured before the send |
| ClientDecorators.RebindableRelpConnection.EnsureSentBytes | src/main/java/com/teragrep/rlp_01/client/RebindableRelpConnection.java:49-54 | the payload goes in a fresh one-request batch, so it counts exactly 1 |
| ClientDecorators.RebindableRelpConnection.IsStub | src/main/java/com/teragrep/rlp_01/client/RebindableRelpConnection.java:67-70 | false |
| ClientDecorators.RebindableRelpConnection.Close | src/main/java/com/teragrep/rlp_01/client/RebindableRelpConnection.java:72-75 | delegates unchanged |
| ClientDecorators.RenewableRelpConnection.constructor | src/main/java/com/teragrep/rlp_01/client/RenewableRelpConnection.java:29-33 | the last access starts at the epoch |
| ClientDecorators.RenewableRelpConnection.Reconnect | src/main/java/com/teragrep/rlp_01/client/RenewableRelpConnection.java:35-39 | notes the access time, then delegates |
| ClientDecorators.RenewableRelpConnection.Connect | src/main/java/com/teragrep/rlp_01/client/RenewableRelpConnection.java:41-45 | notes the access time, then delegates |
| ClientDecorators.RenewableRelpConnection.ForceReconnect | src/main/java/com/teragrep/rlp_01/client/RenewableRelpConnection.java:47-51 | notes the access time, then delegates |
| ClientDecorators.RenewableRelpConnection.EnsureSentBytes | src/main/java/com/teragrep/rlp_01/client/RenewableRelpConnection.java:53-60 | calls `forceReconnect` first exactly when `lastAccess + maxIdle` is strictly before `now`; the access time is `now` before the send is delegated |
| ClientDecorators.RenewableRelpConnection.IsStub | src/main/java/com/teragrep/rlp_01/client/RenewableRelpConnection.java:62-65 | what the wrapped connection answers |
| ClientDecorators.RenewableRelpConnection.Close | src/main/java/com/teragrep/rlp_01/client/RenewableRelpConnection.java:67-70 | delegates unchanged |
| PoolConnections.RebindableRelpConnection.constructor | src/main/java/com/teragrep/rlp_01/pool/RebindableRelpConnection.java:26-30 | `recordsSent` starts at 0 |
| PoolConnections.RebindableRelpConnection.Reconnect | src/main/java/com/teragrep/rlp_01/pool/RebindableRelpConnection.java:32-35 | delegates unchanged |
| PoolConnections.RebindableRelpConnection.EnsureSentBytes | src/main/java/com/teragrep/rlp_01/pool/RebindableRelpConnection.java:37-45 | at or past the threshold it reconnects and restarts at 0; a normal send then adds exactly 1 |
| PoolConnections.RebindEvery | src/main/java/com/teragrep/rlp_01/pool/RebindableRelpConnection.java:37-45 | with threshold `a >= 1`, after `n > 0` sends there were `k` reconnects and the count is `c`, with `n == k*a + c` and `1 <= c <= a` |
| PoolConnections.RebindableRelpConnection.IsStub | src/main/java/com/teragrep/rlp_01/pool/RebindableRelpConnection.java:47-50 | false |
| PoolConnections.RebindableRelpConnection.Close | src/main/java/com/teragrep/rlp_01/pool/RebindableRelpConnection.java:52-55 | delegates unchanged |
| PoolConnections.Pool.constructor | src/main/java/com/teragrep/rlp_01/pool/Pool.java:37-42 | open, nothing idle, nothing made yet |
| PoolConnections.Pool.Get | src/main/java/com/teragrep/rlp_01/pool/Pool.java:44-58 | the stub once closed; otherwise the longest-idle object, or a new supplier object when none is idle |
| PoolConnections.Pool.Offer | src/main/java/com/teragrep/rlp_01/pool/Pool.java:60-89 | anything but the stub joins the tail of the idle queue; on a closed pool the queue is drained and every drained object closed once, in order |
| PoolConnections.Pool.Close | src/main/java/com/teragrep/rlp_01/pool/Pool.java:91-96 | marks the pool closed and drains it through `offer(stub)`, so nothing is idle afterwards and every idle object was closed |
| ConnectionStubs.ManagedRelpConnectionStub.Reconnect | src/main/java/com/teragrep/rlp_01/client/ManagedRelpConnectionStub.java:25-28 | always IllegalStateException |
| ConnectionStubs.ManagedRelpConnectionStub.Connect | src/main/java/com/teragrep/rlp_01/client/ManagedRelpConnectionStub.java:30-33 | always IllegalStateException |
| ConnectionStubs.ManagedRelpConnectionStub.ForceReconnect | src/main/java/com/teragrep/rlp_01/client/ManagedRelpConnectionStub.java:35-38 | always IllegalStateException |
| ConnectionStubs.ManagedRelpConnectionStub.EnsureSentBytes | src/main/java/com/teragrep/rlp_01/client/ManagedRelpConnectionStub.java:40-43 | always IllegalStateException |
| ConnectionStubs.ManagedRelpConnectionStub.EnsureSent | src/main/java/com/teragrep/rlp_01/client/ManagedRelpConnectionStub.java:45-48 | always IllegalStateException |
| ConnectionStubs.ManagedRelpConnectionStub.IsStub | src/main/java/com/teragrep/rlp_01/client/ManagedRelpConnectionStub.java:50-53 | true |
| ConnectionStubs.ManagedRelpConnectionStub.Close | src/main/java/com/teragrep/rlp_01/client/ManagedRelpConnectionStub.java:55-58 | always IllegalStateException |

## Left out

- The plain and TLS sockets, selectors, keep-alive and socket timeouts. They are replaced by the scripted `Transport`; a read or write timeout is a scripted failure.
- SSL context suppliers, keystores and JSSE. There is no TLS in the model.
- `RelpConfig`, `SocketConfig`, host names and ports. `connect` takes no address, and `relpReconnectInterval` with its `Thread.sleep` is dropped.
- `RelpConnectionWithConfig` and the concrete `IRelpConnection` behind `ManagedRelpConnection`. The managed connection runs over `ScriptedRelpConnection`, whose connect, disconnect and commit results are scripted. The session logic itself is `RelpConnection`, proved on its own. The scripted commit always empties the work queue and may store answers for every queued request even when it then throws, whereas `RelpConnection.commit` leaves the requests it did not reach queued when a send throws; the proved properties of the managed layer hold for any such outcome, but the model does not capture that difference.
- `IManagedRelpConnection` implementations under the decorators. They are `RecordedConnection`, which logs each delegated operation and throws scripted exceptions.
- ManagedConnections.ManagedRelpConnection.Connect: the Java loop runs until a connect succeeds. The model allows at most `fuel` attempts and reports whether one succeeded.
- ManagedConnections.ManagedRelpConnection.EnsureSent: the Java loop runs until the batch verifies, and its `connect` never returns unconnected. The model runs at most `fuel` rounds and gives each connect at most `fuel` attempts; it returns `Ok(false)` when the rounds run out or when a connect uses up its attempts, and in the latter case commits nothing more (`DeliverExhausted`). The Java would go on connecting there.
- ManagedConnections.ManagedRelpConnection.SendRounds: the same bound; it stops with `Ok(false)` after a reconnect that used up its `fuel` attempts, where the Java keeps trying to connect.
- Connections.RelpConnection.SendRelpRequestAsync: when the frame overflows the buffer chosen for it, the Java's bulk `put` calls have already left the header fields that fit in the transmit buffer, which is not cleared, so later frames on that connection follow those bytes. The model throws the BufferOverflowException with the transmit buffer left empty, and does not capture the corruption of later frames.
- ClientDecorators.RenewableRelpConnection.EnsureSentBytes: the Java reads the clock once for the idle check and again for `lastAccess`. The model takes a single `now` per call, with time as integer milliseconds whose `Instant` overflow is not modelled.
- ClientDecorators.RebindableRelpConnection.EnsureSent: the 32-bit wrap-around of `recordsSent` is not modelled; it is an unbounded integer. The same holds for PoolConnections.RebindableRelpConnection.EnsureSentBytes.
- Concurrency in `Pool`: its `ConcurrentLinkedQueue`, `AtomicBoolean` and `tryLock` are modelled sequentially, with the lock always free. Closing a pooled object is only recorded, and an exception from that close is swallowed as in the Java.
- The `RELP_DEBUG` switch, `System.out`/`System.err` messages and SLF4J logging.
- The parser getters (`isComplete`, `getTxnId`, `getCommandString`, `getLength`, `getData`, `getState`) and the frame getters. The model reads the fields directly.
- `toString` of `RelpFrameTX` and `RelpFrameRX` decodes with UTF-8, taken here as the platform charset. Each maximal ill-formed subpart of malformed UTF-8 becomes one replacement character, so the bytes `E0 A0 41` decode to a replacement character followed by `A`. Java's decoder may group bad bytes differently; only ASCII content is related to the wire form.
- `requestID` is not part of this model; request ids start at 0 and go up by one, as the batch tests show. Request ids are unbounded integers rather than Java `long`s.
- The test `RelpParserTest` expects the unknown command "horse" to be refused. The parser only refuses unknown commands longer than 11 characters, and the model follows the parser (`FrameRoundTrip.UnknownShortCommandAccepted`).
- The decoder belongs to the connection for its whole life. It is reset after every complete frame, but not when it throws or on `connect`/`tearDown`, so a later read continues from the state it was left in, as in the Java.
- The disabled over-long-field tests describe a buffer overflow that the `String`-based parser does not have; it is not modelled.
