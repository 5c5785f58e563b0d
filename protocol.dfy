/** What each operation of the modem code does to the channel, as a function
 *  of the events still to come: the value it returns, the events it leaves,
 *  and the bytes it writes. The methods of the Gsm module are proved to do
 *  exactly this; the lemmas here state what the protocol promises.
 */
module Protocol {
  import opened Bytes
  import opened Serial
  import opened Framing
  import opened Replies
  import opened Hex
  import opened Blocks

  /** Every line buffer of the modem code is `char linebuf[256]`. */
  const LINE_BUFFER: int := 256
  /** The SMS text terminator. */
  const CTRL_Z: byte := 0x1A
  /** '>' and ' ', the prompt of AT+CMGS in text mode (TS 27.005 section 3.5.1). */
  const PROMPT_GT: byte := 62
  const MAX_MESSAGE: int := 170
  const MAX_NUMBER: int := 80
  /** Bytes read from the file for one block. */
  const CHUNK: int := 64

  /** The outcome of an exchange: the result, the events left, the bytes written. */
  datatype Step = Step(ret: int, rest: seq<Event>, sent: seq<byte>)

  /** An exchange that wrote `sent` first and then did `s`. */
  function After(sent: seq<byte>, s: Step): Step { Step(s.ret, s.rest, sent + s.sent) }

  /** The line as the C string functions see it once get_line has returned it. */
  function Text(f: Framed): seq<byte> { CView(f.stored) }

  /** The events left after get_line with a 256-byte buffer. */
  function AfterLine(input: seq<Event>): seq<Event>
  {
    input[Frame(input, LINE_BUFFER).used..]
  }

  /** GSMSendCommand: write `msg`, read one line, check it is an echo. */
  function CommandSpec(input: seq<Event>, msg: seq<byte>): Step
  {
    var f := Frame(input, LINE_BUFFER);
    Step(EchoVerdict(f.ret, Text(f), msg), input[f.used..], msg)
  }

  /** A reply line and the events after it. */
  datatype Reply = Reply(line: Framed, rest: seq<Event>)

  /** The pattern every query follows: send the command (its echo verdict is
   *  not looked at), skip one line, read the reply line. */
  function QuerySpec(input: seq<Event>, cmd: seq<byte>): Reply
  {
    var r1 := AfterLine(CommandSpec(input, cmd).rest);
    var f := Frame(r1, LINE_BUFFER);
    Reply(f, r1[f.used..])
  }

  /** A get_line into a caller's buffer: what it returned, the events left
   *  and the buffer afterwards. */
  datatype LineRead = LineRead(count: int, rest: seq<Event>, buf: seq<byte>)

  function ReadInto(input: seq<Event>, buf: seq<byte>): LineRead
    requires |buf| == LINE_BUFFER
  {
    var f := Frame(input, LINE_BUFFER);
    LineRead(f.ret, input[f.used..], Overlay(buf, f))
  }

  /** GSMEchoOn: the result, the state after, and the buffer after. */
  datatype Echoed = Echoed(step: Step, buf: seq<byte>)

  function EchoOnSpec(input: seq<Event>, buf: seq<byte>, debug: bool): Echoed
    requires |buf| == LINE_BUFFER
  {
    if debug then Echoed(Step(0, input, []), buf)
    else
      var l1 := ReadInto(input, buf);
      var l2 := ReadInto(l1.rest, l1.buf);
      var l3 := ReadInto(l2.rest, l2.buf);
      var ret := if StrnEqual(CView(l3.buf), OK, 2) then 0 else 1;
      Echoed(Step(ret, Flushed(l3.rest), E1_MESSAGE), l3.buf)
  }

  /** GSMCheckSignal: registration first, signal strength only when registered. */
  function CheckSignalSpec(input: seq<Event>, debug: bool): Step
  {
    if debug then Step(0, input, [])
    else
      var c := CregStep(input);
      if c.ret != 0 then c else After(c.sent, CsqStep(c.rest))
  }

  /** The registration query; the channel is flushed whatever the verdict. */
  function CregStep(input: seq<Event>): Step
  {
    var q := QuerySpec(input, CREG_MESSAGE);
    Step(CregVerdict(q.line.ret, Text(q.line)), Flushed(q.rest), CREG_MESSAGE)
  }

  /** The signal quality query; the channel is flushed whatever the verdict. */
  function CsqStep(input: seq<Event>): Step
  {
    var q := QuerySpec(input, CSQ_MESSAGE);
    Step(CsqVerdict(q.line.ret, Text(q.line)), Flushed(q.rest), CSQ_MESSAGE)
  }

  /** The result of GSMWaitSignal together with how many checks it made. */
  datatype Waited = Waited(step: Step, checks: nat)

  /** The retry loop with `left` attempts to go and `res` the last result.
   *  It makes at most `left` checks (at least one when it may make any);
   *  it gives up with 1 or 2 only after all of them, and stops early only
   *  on a registered good signal (0) or an error (-1). */
  function WaitLoop(input: seq<Event>, left: int, res: int): (w: Waited)
    ensures left <= 0 ==> w.checks == 0 && w.step.ret == res
    ensures left > 0 ==> 1 <= w.checks <= left && w.step.ret in {-1, 0, 1, 2}
    ensures left > 0 && w.step.ret >= 1 ==> w.checks == left
    decreases left
  {
    if left <= 0 then Waited(Step(res, input, []), 0)
    else
      var c := CheckSignalSpec(input, false);
      if c.ret < 1 then Waited(c, 1)
      else
        var w := WaitLoop(c.rest, left - 1, c.ret);
        Waited(After(c.sent, w.step), w.checks + 1)
  }

  /** GSMWaitSignal. */
  function WaitSpec(input: seq<Event>, retries: int, debug: bool): Waited
  {
    if debug then Waited(Step(0, input, []), 0) else WaitLoop(input, retries, 1)
  }

  /** GSMSetSMSMode: AT+CMGF=1 must be answered with OK. */
  function SetSmsModeSpec(input: seq<Event>, debug: bool): Step
  {
    if debug then Step(0, input, [])
    else
      var q := QuerySpec(input, CMGF_MESSAGE);
      Step(ReplyVerdict(q.line.ret, Text(q.line)), q.rest, CMGF_MESSAGE)
  }

  /** GSMAttachGPRS: AT+CGATT=1 must be answered with OK. */
  function AttachGprsSpec(input: seq<Event>): Step
  {
    var q := QuerySpec(input, CGATT_MESSAGE);
    Step(ReplyVerdict(q.line.ret, Text(q.line)), q.rest, CGATT_MESSAGE)
  }

  /** GSMCheckGPRS as written: the verdict depends on the caller's buffer
   *  when the reply is bad. */
  function CheckGprsAsWritten(input: seq<Event>, buf: seq<byte>): (r: CResult)
    requires |buf| == LINE_BUFFER
    ensures r.Returns? ==> r.code in {-1, 0, 1}
  {
    var afterCmd := CommandSpec(input, CGREG_MESSAGE).rest;
    var l1 := ReadInto(afterCmd, buf);
    var l2 := ReadInto(l1.rest, l1.buf);
    GprsVerdictAsWritten(l2.count, l2.buf)
  }

  /** GSMCheckGPRS with the guard and the comma check it evidently intends. */
  function CheckGprsSpec(input: seq<Event>): Step
  {
    var q := QuerySpec(input, CGREG_MESSAGE);
    Step(GprsVerdict(q.line.ret, Text(q.line)), q.rest, CGREG_MESSAGE)
  }

  /** GSMWakeUp: an empty line, then drain whatever the modem says. */
  function WakeUpSpec(input: seq<Event>): Step
  {
    Step(0, Flushed(input), WAKE_UP_MESSAGE)
  }

  /** The first half of GSMSendMessage: send `cmd`, skip a line, and take
   *  the next two characters; 0 when they are the "> " prompt. */
  function PromptSpec(input: seq<Event>, cmd: seq<byte>): Step
  {
    var r1 := AfterLine(CommandSpec(input, cmd).rest);   // echo, then a blank line
    var ok := BytesRead(r1, 2) == 2 && r1[0] == PROMPT_GT && r1[1] == SPACE;
    Step(if ok then 0 else 1, AfterBytes(r1, 2), cmd)
  }

  /** GSMSendMessage: the AT+CMGS handshake of TS 27.005 section 3.5.1 in
   *  text mode. */
  function SendMessageSpec(input: seq<Event>, number: seq<byte>, msg: seq<byte>, debug: bool): Step
  {
    if |msg| > MAX_MESSAGE || |number| > MAX_NUMBER then Step(1, input, [])
    else if debug then Step(0, input, [])
    else TransmitSpec(input, CmgsCommand(number), msg)
  }

  /** The exchange itself: the prompt, then the text and Ctrl-Z, then the
   *  text the modem reads back and one more line. */
  function TransmitSpec(input: seq<Event>, cmd: seq<byte>, msg: seq<byte>): Step
  {
    var p := PromptSpec(input, cmd);
    if p.ret != 0 then p
    else Step(0, AfterLine(AfterBytes(p.rest, LINE_BUFFER)), p.sent + msg + [CTRL_Z])
  }

  /** GSMSendBlock: format the body, refuse one of 180 characters or more. */
  function SendBlockSpec(input: seq<Event>, number: seq<byte>, name: seq<byte>, blockNumber: nat,
                         block: seq<byte>, debug: bool): Step
  {
    var body := BlockBody(name, blockNumber, block);
    if |body| >= BODY_LIMIT then Step(1, input, [])
    else SendMessageSpec(input, number, body, debug)
  }

  /** A file that can be opened: the bytes it yields, and whether reading
   *  then fails (ferror) rather than reaching the end (feof). */
  datatype Source = Source(data: seq<byte>, failing: bool)

  /** GSMSendFile's loop over what is left of the file, `n` blocks sent so
   *  far. Each fread takes up to 64 bytes; a short read sets the end-of-file
   *  or the error indicator. `onFail` is what a refused block makes the
   *  function return. */
  function FileLoop(input: seq<Event>, number: seq<byte>, name: seq<byte>, rest: seq<byte>,
                    failing: bool, n: nat, debug: bool, onFail: int): Step
    decreases |rest|
  {
    var len := Min(CHUNK, |rest|);
    if len == 0 then Step(if failing then 1 else 0, input, [])
    else
      var s := SendBlockSpec(input, number, name, n + 1, rest[..len], debug);
      if s.ret != 0 then Step(onFail, s.rest, s.sent)
      else if len < CHUNK && !failing then Step(0, s.rest, s.sent)
      else After(s.sent, FileLoop(s.rest, number, name, rest[len..], failing, n + 1, debug, onFail))
  }

  /** GSMSendFile as written: a refused block ends the loop but leaves the
   *  result at 0. */
  function SendFileAsWritten(input: seq<Event>, number: seq<byte>, name: seq<byte>,
                             file: Option<Source>, debug: bool): Step
  {
    match file
    case None => Step(1, input, [])
    case Some(src) => FileLoop(input, number, name, src.data, src.failing, 0, debug, 0)
  }

  /** GSMSendFile as evidently intended: a refused block makes it return 1. */
  function SendFileSpec(input: seq<Event>, number: seq<byte>, name: seq<byte>,
                        file: Option<Source>, debug: bool): Step
  {
    match file
    case None => Step(1, input, [])
    case Some(src) => FileLoop(input, number, name, src.data, src.failing, 0, debug, 1)
  }
}
