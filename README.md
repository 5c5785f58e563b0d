# maestro-gsm modem protocol, modelled in Dafny

This project models the AT-command engine of maestro-gsm: the C code that
drives a GSM modem over a serial line (`src/gsm.c`), together with the
serial-port calls it relies on (`src/serial.c`). The engine does these jobs:

- It frames CR LF lines with a per-byte timeout (`get_line`).
- It sends commands and checks their echo.
- It reads the `+CREG`, `+CSQ` and `+CGREG` status replies of 3GPP TS 27.007, and retries the signal check.
- It hex-encodes binary blocks into SMS bodies.
- It runs the `AT+CMGS` prompt handshake of 3GPP TS 27.005 section 3.5.1.
- It sends a file as a numbered series of such messages.

The serial port becomes a class `Serial.SerialPort` with two fields:

- `input`: the events the modem has yet to deliver. An event is a data byte or a quiet window, where no byte arrived within the wait the caller asked for.
- `output`: every byte written so far.

The operations of `gsm.c` that take the modem become methods of the class
`Gsm.Modem`; the serial calls become methods of `Serial.SerialPort`. Three
are not methods of a class: `get_line` is the method `Gsm.GetLine`, which
works on the port and a buffer it is handed; `GSMEncodeBytes` is the method
`Hex.EncodeBytes`; and `SERGetBaud`, which only computes, is the function
`Serial.GetBaud`. Each method's contract says what it returns, which events
it consumes and which bytes it writes, by reference to a specification
function of the `Protocol` module. Each specification function is written on
values: the events still to come go in, and a result, the events left and the
bytes sent come out. The properties of the protocol are proved about those
functions:

- `Framing`: the line framer.
- `Replies`: the verdicts on reply lines.
- `Blocks` and `Hex`: the SMS body format.
- `Outcomes`: results for every input.
- `Transcripts`: runs over well-formed modem answers.

Modules, leaves first: `Bytes` (bytes, C strings, `strtol`), `Serial`,
`Framing`, `Hex`, `Blocks`, `Replies`, `Protocol`, `Gsm`, `Outcomes`,
`Transcripts`.

Two methods carry the corrections listed under Findings rather than the code
as written:

- `Gsm.Modem.SendFile` follows `Protocol.SendFileSpec`, where a refused block makes the result 1. The code as written is kept in `Protocol.SendFileAsWritten`, which leaves the result at 0.
- `Gsm.Modem.CheckGprs` follows `Protocol.CheckGprsSpec` and `Replies.GprsVerdict`, where a failed read or a reply without a comma gives -1. The code as written is kept in `Protocol.CheckGprsAsWritten` and `Replies.GprsVerdictAsWritten`.

Everywhere else the model follows the code, including where the code's own
comments say otherwise:

- The comment on GSMSendMessage says the text shall be under 171 bytes. The code checks this, and the number's length, and returns 1 when either is too long; the model does the same.
- SERGetBytesTimeout returns the number of bytes read, although its comment in serial.h promises -1 on a timeout.
- SERGetBaud recognises 18 rates, from 0 to 230400.

## Model

| member | source | states |
|---|---|---|
| Framing.FrameFrom | src/gsm.c:29-70 | get_line's two-state loop from any state: never uses more events than there are; the buffer holds the stored characters; a success returns exactly the stored length and has written the NUL |
| Framing.Frame | src/gsm.c:29-70 | get_line from its initial state: state 0, nothing stored yet; the lemmas below state what it returns |
| Framing.FrameLine | src/gsm.c:37-68 | a CR/LF-free line shorter than the buffer, followed by CR LF, is returned whole, with its length, using exactly its events |
| Framing.FrameSuccess | src/gsm.c:37-68 | conversely, every success is such a line: under buflen characters, free of CR and LF, consumed together with its CR LF |
| Framing.FrameRejectsBareLf | src/gsm.c:50-54 | an LF not preceded by CR is an error |
| Framing.FrameRejectsCrWithoutLf | src/gsm.c:40-61 | after a CR, anything but LF is an error: a quiet window, a second CR or an ordinary character |
| Framing.FrameRejectsOverflow | src/gsm.c:62-67 | a line that reaches buflen characters before any CR is an error, never a truncated success; the buffer then holds its first buflen characters |
| Framing.FrameRejectsTimeout | src/gsm.c:38-42 | a quiet window, or the end of input, before the line is complete is an error |
| Gsm.GetLine | src/gsm.c:29-70 | the loop over SERGetByteTimeout returns what Frame says, consumes Frame's events, and leaves the buffer as Overlay describes |
| Gsm.Modem.DebugMode | src/gsm.c:74-78 | sets the debug flag and returns 0 |
| Gsm.Modem.EchoOn | src/gsm.c:86-108 | behaves as EchoOnSpec: 0 at once in debug mode; otherwise ATE1, three reads into the caller's buffer, a flush, and OK looked for at the head of the buffer |
| Transcripts.EchoOnOfAnswer | src/gsm.c:86-108 | over three lines and a quiet window: 0 exactly when the third line starts with OK; the channel is left past the window |
| Transcripts.EchoOnSilentModem | src/gsm.c:95-105 | when the modem says nothing, the verdict is whatever the uninitialised buffer starts with: 0 for a buffer starting with OK, 1 for a zeroed one |
| Gsm.Modem.SendCommand | src/gsm.c:113-131 | behaves as CommandSpec: writes the command and reads one line |
| Transcripts.CommandVerdict | src/gsm.c:113-131 | the echo is accepted (0) exactly when a non-empty line was read whose C string is a prefix of the command; otherwise 1; a success consumed that line and its CR LF |
| Transcripts.CommandOfEcho | src/gsm.c:120-130 | a clean echo line is accepted exactly when it is a non-empty prefix of the command |
| Transcripts.CommandAcceptsNulLine | src/gsm.c:126 | a line holding only a NUL reads as the empty string and passes as the echo of any command |
| Replies.EchoVerdictIsPrefix | src/gsm.c:122-130 | strncmp over strlen(line) characters succeeds exactly when the line is a prefix of the command |
| Replies.EchoVerdict | src/gsm.c:122-130 | GSMSendCommand's verdict: 1 for a read that failed or gave nothing; otherwise 0 when strncmp over the line's length matches the command, else 1 |
| Gsm.Modem.CheckSignal | src/gsm.c:264-335 | behaves as CheckSignalSpec: 0 at once in debug mode; otherwise registration first, signal quality only when registered |
| Gsm.Modem.CheckRegistration | src/gsm.c:276-306 | behaves as CregStep: AT+CREG?, skip a line, read the reply, flush whatever the verdict |
| Gsm.Modem.CheckQuality | src/gsm.c:308-334 | behaves as CsqStep: AT+CSQ, skip a line, read the reply, flush whatever the verdict |
| Gsm.Modem.Query | src/gsm.c:277-280 | sends a command, skips one line and returns the count and text of the next, as QuerySpec says |
| Replies.CregVerdict | src/gsm.c:282-306 | the +CREG verdict is -1, 0 or 1 |
| Replies.CregRejectsMalformed | src/gsm.c:282-298 | a reply shorter than 10 characters, one with another prefix, or one without a comma gives -1 |
| Replies.CregOfWellFormedLine | src/gsm.c:293-306 | a well-formed "+CREG: n,stat" gives 0 for stat 1 or 5 and 1 otherwise |
| Replies.CregVerdictAtComma | src/gsm.c:293-306 | a "+CREG: " reply whose first comma is at k is classified by the number after that comma |
| Replies.CsqVerdict | src/gsm.c:314-334 | the +CSQ verdict is -1, 0 or 2 |
| Replies.CsqRejectsMalformed | src/gsm.c:314-323 | a reply shorter than 9 characters, or one that does not start with "+CSQ: ", gives -1 |
| Replies.CsqOfWellFormedLine | src/gsm.c:325-334 | a well-formed "+CSQ: rssi,ber" gives 2 below level 5 and 0 otherwise |
| Outcomes.CheckSignalOutcome | src/gsm.c:264-335 | GSMCheckSignal returns -1, 0, 1 or 2; a failed registration check is the result, with only AT+CREG? sent; otherwise the result is the quality check, with both commands sent; 2 only for a registered modem |
| Transcripts.CregOfAnswer | src/gsm.c:276-306 | over a well-formed +CREG answer the check classifies by stat and leaves the channel at the next answer |
| Transcripts.CsqOfAnswer | src/gsm.c:308-334 | over a well-formed +CSQ answer the check classifies by the signal level |
| Transcripts.CheckSignalOfAnswers | src/gsm.c:264-335 | over two well-formed answers: 1 when not registered, with +CSQ never sent; otherwise 2 for a weak signal and 0 for a good one |
| Transcripts.QueryOfLines | src/gsm.c:277-280 | every query skips the echo and one more line, and returns the third line |
| Transcripts.FlushBurst | src/serial.c:264-291 | the flush discards the bytes up to and including the quiet window that ends an answer, and nothing after it |
| Protocol.WaitLoop | src/gsm.c:345-365 | the retry loop makes at most `left` checks, and at least one when it may make any; it returns 1 or 2 only after using them all; with no attempts left it returns the last result |
| Gsm.Modem.WaitSignal | src/gsm.c:345-365 | behaves as WaitSpec: 0 at once in debug mode, otherwise the retry loop from a result of 1 |
| Gsm.WaitAdvance | src/gsm.c:353-363 | one round of the retry loop: a check giving 0 or -1 ends the loop with that result, its events and its bytes; a result of 1 or more leaves the rest of the loop to run, with one attempt fewer |
| Gsm.WaitEnd | src/gsm.c:353-364 | once every attempt is used, the loop returns the last result and consumes and sends nothing more |
| Outcomes.WaitStopsEarly | src/gsm.c:353-364 | a check that succeeds or fails outright ends the loop after that one check, with its result, its events and its bytes |
| Outcomes.WaitLastAttempt | src/gsm.c:353-364 | with one attempt left the loop returns what that check returns, whatever the result before it |
| Transcripts.WaitNotRegistered | src/gsm.c:345-365 | against three "not registered" answers, GSMWaitSignal(3) makes exactly three checks and returns 1 |
| Gsm.Modem.SetSmsMode | src/gsm.c:371-400 | behaves as SetSmsModeSpec: 0 at once in debug mode; otherwise AT+CMGF=1, skip a line, read the reply |
| Gsm.Modem.AttachGprs | src/gsm.c:539-562 | behaves as AttachGprsSpec: AT+CGATT=1, skip a line, read the reply, no debug check |
| Replies.ReplyVerdictIsOk | src/gsm.c:387-399 | the reply is accepted exactly when a non-empty line reading OK was read; ERROR, anything else and a failed read give 1 |
| Replies.ReplyVerdict | src/gsm.c:387-399 | the verdict of GSMSetSMSMode (and, in the same words, of GSMAttachGPRS at src/gsm.c:549-561): 1 for a failed or empty read and for ERROR, 0 for OK, 1 for anything else |
| Transcripts.OkQueryOfLines | src/gsm.c:371-400 | over an answer, GSMSetSMSMode and GSMAttachGPRS give 0 exactly when the reply line is OK, and leave the events after it |
| Replies.GprsTimeoutPassesGuard | src/gsm.c:577 | a failed read (-1) passes the length guard, and an old "+CGREG: 0,1" left in the buffer gives 0 |
| Replies.GprsNoCommaIsUndefined | src/gsm.c:583-584 | a long enough reply without a comma makes the code dereference NULL |
| Replies.GprsVerdict | src/gsm.c:566-588 | the corrected check gives -1, 0 or 1, and -1 for a short or failed read and for a reply without a comma |
| Replies.GprsVerdictAgrees | src/gsm.c:577-587 | whenever the count is at least 11 and the reply holds a comma, the corrected check returns what the code does |
| Replies.GprsVerdictAsWritten | src/gsm.c:566-588 | the code as written gives -1, 0, 1 or undefined behaviour; a count from 0 to 10 gives -1, but a negative count never does, since it is compared as unsigned |
| Protocol.CheckGprsAsWritten | src/gsm.c:566-588 | GSMCheckGPRS as written, over the caller's buffer: whenever it returns, it returns -1, 0 or 1 |
| Replies.GprsOfWellFormedLine | src/gsm.c:583-587 | a one-digit state in "+CGREG: n,stat" means attached exactly for 1 or 5 |
| Gsm.Modem.CheckGprs | src/gsm.c:566-588 | behaves as the corrected CheckGprsSpec |
| Outcomes.CheckGprsSilentModem | src/gsm.c:566-588 | with a silent modem and an old "+CGREG: 0,1" in the buffer, the code as written gives 0 and the corrected check -1 |
| Outcomes.CheckGprsAgrees | src/gsm.c:566-588 | whenever the reply is long enough and holds a comma, the code as written and the corrected check agree, whatever the buffer held |
| Transcripts.CheckGprsOfLines | src/gsm.c:566-588 | over a +CGREG answer with a one-digit state, the corrected check gives 0 for 1 or 5 and 1 otherwise |
| Gsm.Modem.WakeUp | src/gsm.c:530-535 | writes CR LF, flushes, and returns 0 |
| Replies.CmgsCommand | src/gsm.c:186 | "AT+CMGS=<number>\r\n" is 10 characters longer than the number, and a C string when the number is one |
| Gsm.Modem.SendMessage | src/gsm.c:157-214 | behaves as SendMessageSpec: the length checks, then debug mode, then the handshake |
| Gsm.Modem.AwaitPrompt | src/gsm.c:186-201 | behaves as PromptSpec: send AT+CMGS, skip a line, read two bytes and compare them with "> " |
| Gsm.Modem.Transmit | src/gsm.c:186-213 | behaves as TransmitSpec: the prompt, then the text and Ctrl-Z, then the read-back |
| Gsm.Modem.ReadBack | src/gsm.c:207-211 | skips up to 256 bytes of read-back and then one line, writing nothing |
| Outcomes.PromptVerdict | src/gsm.c:189-201 | the prompt check succeeds exactly when, after the echo and one more line, the next two characters are "> " |
| Outcomes.SendMessageOutcome | src/gsm.c:157-214 | returns 0 or 1; a text over 170 characters or a number over 80 gives 1 with nothing read or written; a failure has written at most the AT+CMGS command; a success outside debug mode wrote the command, the text and Ctrl-Z, after a "> " prompt |
| Transcripts.SendMessageOfAnswer | src/gsm.c:157-214 | over a well-behaved modem (echo, blank line, "> ", a read-back burst under 256 bytes, a confirmation line), the command, the text and Ctrl-Z go out and the channel is left after the confirmation |
| Hex.Enc | src/gsm.c:216-233 | two characters per byte |
| Hex.EncAt | src/gsm.c:228-230 | byte i sits at positions 2i and 2i+1 as its high and low lowercase hex digits |
| Hex.DecEnc | src/gsm.c:216-233 | decoding the encoding pairwise gives back the bytes |
| Hex.EncodeBytes | src/gsm.c:216-233 | the loop filling a zeroed buffer two digits at a time yields exactly Enc(data), which decodes back to the data |
| Hex.ParseHexNumber | src/gsm.c:449-457 | "%x" of the block number reads back as that number and uses only hex digits |
| Blocks.BlockBody | src/gsm.c:449-457 | the body GSMSendBlock formats: the name, a space, the block number in hex and a newline, then the first 32 data bytes and the rest in hex, each line ended by a newline; BlockBodyLength and ParseBlockBody state its length and that it reads back |
| Blocks.BlockBodyLength | src/gsm.c:449-450 | the length snprintf measures is the name, plus the hex number, plus four separators, plus two characters per data byte |
| Blocks.BlockBodyIsCString | src/gsm.c:456-457 | the body holds no NUL when the name holds none |
| Blocks.DataLines | src/gsm.c:428-446 | the two data lines hold no newline and decode to the first 32 bytes and to the rest |
| Blocks.ParseBlockBody | src/gsm.c:405-469 | every body GSMSendBlock builds reads back as its file name, block number and data, provided the name is a single line |
| Gsm.Modem.SendBlock | src/gsm.c:417-469 | behaves as SendBlockSpec: encode both lines, refuse a body of 180 characters or more, otherwise send it as one message |
| Outcomes.SendBlockOutcome | src/gsm.c:417-469 | every body over 170 characters is refused with nothing sent, since GSMSendMessage's limit always decides before the limit of 180; otherwise it is one message whose text parses back as name, number and data |
| Gsm.Modem.SendFile | src/gsm.c:477-526 | behaves as the corrected SendFileSpec: a missing file gives 1, and each chunk is sent as the next block |
| Protocol.FileLoop | src/gsm.c:495-523 | GSMSendFile's loop: chunks of up to 64 bytes go out as the following blocks; a refused block ends it with the given failure result; a short chunk read without error ends it with 0; an empty read ends it with 1 after a read error and 0 otherwise; FileLoopOutcome states what it returns |
| Protocol.SendFileAsWritten | src/gsm.c:477-526 | GSMSendFile as written: 1 for a file that cannot be opened; otherwise the loop with a refused block leaving the result at 0 |
| Outcomes.FileLoopOutcome | src/gsm.c:495-523 | corrected, the loop returns 0 exactly when the file was read without error and every block was accepted; as written, it returns 1 only for a read error after every block was accepted; both write the same bytes |
| Outcomes.SendFileOutcome | src/gsm.c:477-526 | GSMSendFile returns 0 or 1, gives 1 for a file that cannot be opened, and returns 0 exactly for a fully delivered file; the code as written sends the same and returns 0 whenever the corrected code does |
| Outcomes.FileOfThreeBlocks | src/gsm.c:495-523 | a 130-byte file whose first two blocks are accepted goes out as blocks 1, 2 and 3 of 64, 64 and 2 bytes, each on the events the one before left; the result is that of block 3 |
| Outcomes.FileTwoChunks | src/gsm.c:495-523 | the first two, full 64-byte chunks of a 130-byte file, both accepted, go out as blocks 1 and 2, and the loop goes on with the last 2 bytes as block 3 |
| Outcomes.FileSecondBlockRefused | src/gsm.c:495-523 | when block 2 of a 130-byte file is refused, block 3 is never attempted; the corrected code returns 1, the code as written 0, and both send the same |
| Outcomes.FileRefusedAt2 | src/gsm.c:513-516 | a refused block 2 ends the loop with its failure result, having sent blocks 1 and 2 only |
| Outcomes.SendFileRefusedBlock | src/gsm.c:513-521 | with a 170-character name every block is refused; the code as written still returns 0, the corrected code 1 |
| Serial.SerialPort.GetByteTimeout | src/serial.c:334-347 | returns the next byte, or -1 on a quiet window or at the end of input |
| Serial.SerialPort.GetBytesTimeout | src/serial.c:359-380 | delivers min(count, bytes before the next quiet window) into the buffer, leaves the rest of the buffer alone, and consumes the quiet window when it stops short |
| Serial.SerialPort.FlushChannel | src/serial.c:264-291 | discards everything up to and including the next quiet window, however many bytes each read takes, and writes nothing |
| Serial.SerialPort.PutString | src/serial.c:242-255 | appends the C string to what was written |
| Serial.SerialPort.PutByte | src/serial.c:227-233 | appends one byte to what was written |
| Serial.GetBaud | src/serial.c:43-104 | returns 0 with a listed rate, or 1 with the speed left unchanged |
| Serial.GetBaudAccepts | src/serial.c:43-104 | a string is accepted exactly when it is the decimal name of one of the 18 listed rates, and the stored rate is the one it names |
| Serial.GetBaudOfRate | src/serial.c:48-100 | every listed rate is recognised from its decimal name |
| Serial.GetBaudRejects | src/serial.c:101-103 | near misses are rejected and leave the speed as it was: an unlisted rate, white space, a leading zero, the empty string |
| Bytes.StrtolDecimal | src/gsm.c:300 | strtol of a decimal number up to LONG_MAX, followed by nothing or by a non-digit, gives that number |
| Bytes.Strtol | src/gsm.c:300 | strtol(s, NULL, 10) as the registration and signal checks use it (also at src/gsm.c:326): white space, a sign, decimal digits, no digits giving 0; the result always lies within a 32-bit long |
| Bytes.CView | src/gsm.c:102 | the C string at the head of a buffer is the part before the first NUL, or all of it |

## Left out

- Timing: the time-outs (900 ms per byte, the flush windows, the waits of SERGetBytesTimeout) and the `sleep` calls become the quiet-window events of the channel. Time itself is not modelled.
- Opening, configuring and closing the port (SEROpenPort, SERClosePort, termios) and the `select` and `read` calls are replaced by the abstract channel. A failed `select` counts as a quiet window; SERQueryChannel and SERFlushChannel both return then, as for a timeout.
- Failed reads are not modelled: every `read` is taken to deliver bytes that `select` announced. The code differs when a read fails. SERGetByte (src/serial.c:210-219) ignores `read`'s result and returns its uninitialised byte. SERFlushChannel (src/serial.c:286-288) ignores it too and selects again, so after a hang-up it loops for ever. Only SERGetBytesTimeout stops on a failed read (`ret < 1`), returning what it has.
- SERGetBaud: the `speed_t` codes B0 to B230400 are represented by the rates they name.
- The return value of SERPutString, which no caller looks at, is not modelled. Writes always succeed.
- Logging (LOGWrite) and the `debug(...)` printing are left out. They do not affect results.
- GSMSendBlock prints the message body to stdout in debug mode (`printf` at src/gsm.c:464-466). This is neither a LOGWrite nor a `debug(...)` print, and it is not modelled either.
- File handles are not modelled, so neither is their release. GSMSendFile opens the file (src/gsm.c:488) and never calls `fclose`, so each call leaks a handle.
- `calloc` failure in GSMEncodeBytes and the "Out of memory" returns of GSMSendBlock are left out. Allocation always succeeds in the model.
- `fopen` and `fread` are modelled by `Protocol.Source`: a file that cannot be opened is `None`; an open file is its bytes and whether reading ends in an error rather than end-of-file. Partial reads shorter than 64 bytes before the end are not modelled.
- Gsm.Modem.SendFile: the block counter `n` is unbounded. The C `int` would overflow only after 2^31 blocks.
- Bytes.Strtol clamps to a 32-bit `long`, as on the target. `errno` is not modelled.
- The `assert` calls of the C code become preconditions: non-NULL pointers, a positive block number, a non-empty block.
- GSMDecodeBytes is a stub that returns NULL. `Hex.Dec` is an independent reference decoder used to state the round trip.
- Gsm.Modem.EchoOn and the as-written CheckGPRS take the line buffer as a parameter. In C it is an uninitialised local, whose contents the model leaves open.

## Findings

| source | as written | input that shows it | evidently intended | confidence | as-written member | corrected member |
|---|---|---|---|---|---|---|
| src/gsm.c:577 | `count < strlen("+CGREG: 0,0")` compares an `int` with a `size_t`, so a failed read (-1) passes the length guard | no reply to AT+CGREG? while the buffer still holds "+CGREG: 0,1" from before: the result is 0 (attached) | a failed or short read gives -1, as in GSMCheckSignal | not executed | Replies.GprsTimeoutPassesGuard, Outcomes.CheckGprsSilentModem | Replies.GprsVerdict, Outcomes.CheckGprsAgrees, Gsm.Modem.CheckGprs |
| src/gsm.c:583-584 | the result of `strchr(linebuf, ',')` is dereferenced without a NULL check | the reply "+CGREG: 0 1" (11 characters, no comma) | a reply without a comma gives -1, as in GSMCheckSignal | not executed | Replies.GprsNoCommaIsUndefined | Replies.GprsVerdict, Gsm.Modem.CheckGprs |
| src/gsm.c:513-521 | a refused block sets `done` but leaves `ret` at 0, so the transfer reports success | a file of one byte sent under a 170-character name: the body is too long, no message goes out, and the result is 0 | any block failure makes GSMSendFile return 1 | not executed | Protocol.SendFileAsWritten, Outcomes.SendFileRefusedBlock | Protocol.SendFileSpec, Outcomes.FileLoopOutcome, Gsm.Modem.SendFile |
