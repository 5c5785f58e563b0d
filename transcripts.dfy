/** What the modem code does when the modem answers as TS 27.007 says it
 *  will: each query is echoed, followed by a blank line and the reply line;
 *  the answer ends with a quiet window. These lemmas run the specification
 *  functions of the Protocol module over such transcripts.
 */
module Transcripts {
  import opened Bytes
  import opened Serial
  import opened Framing
  import opened Replies
  import opened Protocol
  import opened Gsm

  /** The events of one line as the modem sends it. */
  function Line(s: seq<byte>): seq<Event> { s + [CR, LF] }

  /** The answer to a query: the echo, a blank line, the reply line, any
   *  further bytes (the final result code) and a quiet window; then `next`. */
  function Answer(echo: seq<byte>, reply: seq<byte>, trailer: seq<byte>, next: seq<Event>): seq<Event>
  {
    Line(echo) + (Line([]) + (Line(reply) + (trailer + [TIMEOUT] + next)))
  }

  /** A line that get_line returns whole from a 256-byte buffer. */
  predicate Fits(s: seq<byte>) { LineChars(s) && |s| < LINE_BUFFER }

  lemma LineCharsAppend(a: seq<byte>, b: seq<byte>)
    requires LineChars(a) && LineChars(b)
    ensures LineChars(a + b)
  {
    forall i | 0 <= i < |a + b| ensures (a + b)[i] != CR && (a + b)[i] != LF {
      if i >= |a| { assert (a + b)[i] == b[i - |a|]; }
    }
  }

  lemma DecimalChars(n: nat)
    ensures LineChars(Decimal(n)) && CString(Decimal(n)) && COMMA !in Decimal(n)
  {
    DecimalHasNoComma(n);
    var d := Decimal(n);
    forall i | 0 <= i < |d| ensures d[i] != CR && d[i] != LF { assert IsDigit(d[i]); }
  }

  /** A clean line of fewer than 256 characters is read whole and leaves
   *  exactly what follows its CR LF. */
  lemma ReadLine(s: seq<byte>, rest: seq<Event>)
    requires Fits(s)
    ensures Frame(Line(s) + rest, LINE_BUFFER) == Framed(|s|, |s| + 2, s, true)
    ensures AfterLine(Line(s) + rest) == rest
  {
    FrameLine(s, rest, LINE_BUFFER);
    assert (Line(s) + rest)[|s| + 2..] == rest;
  }

  /** GSMSendCommand accepts exactly a non-empty echo line whose text is a
   *  prefix of the command; a success always consumed that line and its
   *  CR LF. (A line whose first character is NUL has empty text and so
   *  passes.) */
  lemma CommandVerdict(input: seq<Event>, cmd: seq<byte>)
    ensures var s := CommandSpec(input, cmd);
      s.sent == cmd && (s.ret == 0 || s.ret == 1)
    ensures var s := CommandSpec(input, cmd); var f := Frame(input, LINE_BUFFER);
      s.ret == 0 <==> f.ret > 0 && Text(f) <= cmd
    ensures var s := CommandSpec(input, cmd); var f := Frame(input, LINE_BUFFER);
      s.ret == 0 ==> input == f.stored + [CR, LF] + s.rest
  {
    var f := Frame(input, LINE_BUFFER);
    EchoVerdictIsPrefix(f.ret, Text(f), cmd);
    FrameSuccess(input, LINE_BUFFER);
    if f.ret >= 0 {
      assert input == input[..f.used] + input[f.used..];
    }
  }

  /** An echo that is a prefix of the command is accepted, and anything
   *  else (an empty line included) refused. */
  lemma CommandOfEcho(echo: seq<byte>, cmd: seq<byte>, rest: seq<Event>)
    requires Fits(echo) && CString(echo)
    ensures var s := CommandSpec(Line(echo) + rest, cmd);
      s.rest == rest && s.sent == cmd && (s.ret == 0 <==> echo != [] && echo <= cmd)
  {
    ReadLine(echo, rest);
    CViewOfCString(echo);
    EchoVerdictIsPrefix(|echo|, echo, cmd);
  }

  /** Every query skips the echo and one more line and reads the third. */
  lemma QueryOfLines(cmd: seq<byte>, echo: seq<byte>, blank: seq<byte>, reply: seq<byte>, rest: seq<Event>)
    requires Fits(echo) && Fits(blank) && Fits(reply)
    ensures var q := QuerySpec(Line(echo) + (Line(blank) + (Line(reply) + rest)), cmd);
      q.line == Framed(|reply|, |reply| + 2, reply, true) && q.rest == rest
  {
    ReadLine(echo, Line(blank) + (Line(reply) + rest));
    ReadLine(blank, Line(reply) + rest);
    ReadLine(reply, rest);
  }

  /** The flush of SERFlushChannel stops at the quiet window that ends an
   *  answer. */
  lemma FlushBurst(burst: seq<byte>, more: seq<Event>)
    ensures Flushed(burst + [TIMEOUT] + more) == more
  {
    RunOfBurst(burst, more);
    assert (burst + [TIMEOUT] + more)[|burst|..] == [TIMEOUT] + more;
  }

  /** The bytes available at once are those before the quiet window. */
  lemma RunOfBurst(burst: seq<byte>, more: seq<Event>)
    ensures Run(burst + [TIMEOUT] + more) == |burst|
  {
    var input := burst + [TIMEOUT] + more;
    assert input[|burst|] == TIMEOUT;
  }

  /** The reply of a query, as its checks see it. */
  lemma QueryOfAnswer(cmd: seq<byte>, echo: seq<byte>, reply: seq<byte>, trailer: seq<byte>, next: seq<Event>)
    requires Fits(echo) && Fits(reply) && CString(reply)
    ensures var q := QuerySpec(Answer(echo, reply, trailer, next), cmd);
      q.line.ret == |reply| && Text(q.line) == reply && Flushed(q.rest) == next &&
      q.rest == trailer + [TIMEOUT] + next
  {
    QueryOfLines(cmd, echo, [], reply, trailer + [TIMEOUT] + next);
    CViewOfCString(reply);
    FlushBurst(trailer, next);
  }

  lemma CregLineFits(n: nat, stat: nat)
    requires |Decimal(n)| + |Decimal(stat)| < 248
    ensures Fits(CregLine(n, stat)) && CString(CregLine(n, stat))
  {
    DecimalChars(n);
    DecimalChars(stat);
    assert LineChars(CREG_MESSAGE_RES) && LineChars([COMMA]);
    LineCharsAppend(CREG_MESSAGE_RES, Decimal(n));
    LineCharsAppend(CREG_MESSAGE_RES + Decimal(n), [COMMA]);
    LineCharsAppend(CREG_MESSAGE_RES + Decimal(n) + [COMMA], Decimal(stat));
  }

  lemma CsqLineFits(rssi: nat, ber: nat)
    requires |Decimal(rssi)| + |Decimal(ber)| < 249
    ensures Fits(CsqLine(rssi, ber)) && CString(CsqLine(rssi, ber))
  {
    DecimalChars(rssi);
    DecimalChars(ber);
    assert LineChars(CSQ_MESSAGE_RES) && LineChars([COMMA]);
    LineCharsAppend(CSQ_MESSAGE_RES, Decimal(rssi));
    LineCharsAppend(CSQ_MESSAGE_RES + Decimal(rssi), [COMMA]);
    LineCharsAppend(CSQ_MESSAGE_RES + Decimal(rssi) + [COMMA], Decimal(ber));
  }

  /** The registration check of a well-formed +CREG answer: registered for
   *  stat 1 or 5, otherwise 1; the channel is left at the next answer. */
  lemma CregOfAnswer(echo: seq<byte>, n: nat, stat: nat, trailer: seq<byte>, next: seq<Event>)
    requires Fits(echo) && stat <= LONG_MAX && |Decimal(n)| + |Decimal(stat)| < 248
    ensures var s := CregStep(Answer(echo, CregLine(n, stat), trailer, next));
      s.ret == (if stat == 1 || stat == 5 then 0 else 1) && s.rest == next && s.sent == CREG_MESSAGE
  {
    CregLineFits(n, stat);
    QueryOfAnswer(CREG_MESSAGE, echo, CregLine(n, stat), trailer, next);
    CregOfWellFormedLine(n, stat);
  }

  /** The quality check of a well-formed +CSQ answer: 2 below level 5. */
  lemma CsqOfAnswer(echo: seq<byte>, rssi: nat, ber: nat, trailer: seq<byte>, next: seq<Event>)
    requires Fits(echo) && rssi <= LONG_MAX && |Decimal(rssi)| + |Decimal(ber)| < 249
    ensures var s := CsqStep(Answer(echo, CsqLine(rssi, ber), trailer, next));
      s.ret == (if rssi < 5 then 2 else 0) && s.rest == next && s.sent == CSQ_MESSAGE
  {
    CsqLineFits(rssi, ber);
    QueryOfAnswer(CSQ_MESSAGE, echo, CsqLine(rssi, ber), trailer, next);
    CsqOfWellFormedLine(rssi, ber);
  }

  /** GSMCheckSignal over well-formed answers: 1 when not registered (and
   *  +CSQ is then never sent), otherwise 2 for a weak signal and 0 for a
   *  good one. */
  lemma CheckSignalOfAnswers(e1: seq<byte>, n: nat, stat: nat, t1: seq<byte>,
                             e2: seq<byte>, rssi: nat, ber: nat, t2: seq<byte>, next: seq<Event>)
    requires Fits(e1) && stat <= LONG_MAX && |Decimal(n)| + |Decimal(stat)| < 248
    requires Fits(e2) && rssi <= LONG_MAX && |Decimal(rssi)| + |Decimal(ber)| < 249
    ensures var second := Answer(e2, CsqLine(rssi, ber), t2, next);
      var s := CheckSignalSpec(Answer(e1, CregLine(n, stat), t1, second), false);
      if stat != 1 && stat != 5 then s.ret == 1 && s.rest == second && s.sent == CREG_MESSAGE
      else s.ret == (if rssi < 5 then 2 else 0) && s.rest == next && s.sent == CREG_MESSAGE + CSQ_MESSAGE
  {
    var second := Answer(e2, CsqLine(rssi, ber), t2, next);
    CregOfAnswer(e1, n, stat, t1, second);
    CsqOfAnswer(e2, rssi, ber, t2, next);
  }

  /** GSMSetSMSMode and GSMAttachGPRS over an answer: 0 exactly when the
   *  reply line is OK; the events after it are left. */
  lemma OkQueryOfLines(echo: seq<byte>, reply: seq<byte>, rest: seq<Event>)
    requires Fits(echo) && Fits(reply) && CString(reply)
    ensures var s := SetSmsModeSpec(Line(echo) + (Line([]) + (Line(reply) + rest)), false);
      s.rest == rest && s.sent == CMGF_MESSAGE && (s.ret == 0 <==> reply == OK)
    ensures var s := AttachGprsSpec(Line(echo) + (Line([]) + (Line(reply) + rest)));
      s.rest == rest && s.sent == CGATT_MESSAGE && (s.ret == 0 <==> reply == OK)
  {
    QueryOfLines(CMGF_MESSAGE, echo, [], reply, rest);
    QueryOfLines(CGATT_MESSAGE, echo, [], reply, rest);
    CViewOfCString(reply);
    ReplyVerdictIsOk(|reply|, reply);
  }

  lemma CgregLineFits(n: nat, stat: nat)
    requires |Decimal(n)| + |Decimal(stat)| < 247
    ensures Fits(CgregLine(n, stat)) && CString(CgregLine(n, stat))
  {
    DecimalChars(n);
    DecimalChars(stat);
    assert LineChars(CGREG_RES) && LineChars([COMMA]);
    LineCharsAppend(CGREG_RES, Decimal(n));
    LineCharsAppend(CGREG_RES + Decimal(n), [COMMA]);
    LineCharsAppend(CGREG_RES + Decimal(n) + [COMMA], Decimal(stat));
  }

  /** GSMCheckGPRS (as corrected) over a +CGREG answer with a one-digit state. */
  lemma CheckGprsOfLines(echo: seq<byte>, n: nat, stat: nat, rest: seq<Event>)
    requires Fits(echo) && stat < 10 && |Decimal(n)| < 246
    ensures var s := CheckGprsSpec(Line(echo) + (Line([]) + (Line(CgregLine(n, stat)) + rest)));
      s.rest == rest && s.sent == CGREG_MESSAGE && s.ret == (if stat == 1 || stat == 5 then 0 else 1)
  {
    var line := CgregLine(n, stat);
    assert |Decimal(stat)| == 1;
    CgregLineFits(n, stat);
    QueryOfLines(CGREG_MESSAGE, echo, [], line, rest);
    CViewOfCString(line);
    GprsOfWellFormedLine(n, stat);
  }

  /** A line holding just a NUL reads as the empty string, so GSMSendCommand
   *  takes it for the echo of any command. */
  lemma CommandAcceptsNulLine(cmd: seq<byte>, rest: seq<Event>)
    ensures CommandSpec(Line([NUL]) + rest, cmd).ret == 0
  {
    ReadLine([NUL], rest);
    assert CView([NUL]) == [];
  }

  /** GSMEchoOn over three lines and a quiet window: 0 exactly when the
   *  third line starts with OK; the channel is left past the window. */
  lemma EchoOnOfAnswer(a: seq<byte>, b: seq<byte>, c: seq<byte>, trailer: seq<byte>, next: seq<Event>,
                       buf: seq<byte>)
    requires Fits(a) && Fits(b) && Fits(c) && CString(c) && |buf| == LINE_BUFFER
    ensures var e := EchoOnSpec(Line(a) + (Line(b) + (Line(c) + (trailer + [TIMEOUT] + next))), buf, false);
      e.step.rest == next && e.step.sent == E1_MESSAGE && (e.step.ret == 0 <==> |c| >= 2 && c[..2] == OK)
  {
    var t: seq<Event> := trailer + [TIMEOUT] + next;
    var l1 := ReadInto(Line(a) + (Line(b) + (Line(c) + t)), buf);
    ReadIntoLine(a, Line(b) + (Line(c) + t), buf);
    var l2 := ReadInto(Line(b) + (Line(c) + t), l1.buf);
    ReadIntoLine(b, Line(c) + t, l1.buf);
    var l3 := ReadInto(Line(c) + t, l2.buf);
    ReadIntoLine(c, t, l2.buf);
    CViewOfCString(c);
    StartsWithOk(c);
    FlushBurst(trailer, next);
  }

  lemma StartsWithOk(c: seq<byte>)
    ensures StrnEqual(c, OK, 2) <==> |c| >= 2 && c[..2] == OK
  {
  }

  /** get_line into a caller's buffer over a clean line: the buffer then
   *  reads as that line. */
  lemma ReadIntoLine(s: seq<byte>, rest: seq<Event>, buf: seq<byte>)
    requires Fits(s) && |buf| == LINE_BUFFER
    ensures var l := ReadInto(Line(s) + rest, buf);
      l.count == |s| && l.rest == rest && |l.buf| == LINE_BUFFER && CView(l.buf) == CView(s)
  {
    ReadLine(s, rest);
    TextOfLine(buf, Framed(|s|, |s| + 2, s, true));
  }

  /** When the modem says nothing, GSMEchoOn's verdict is whatever its
   *  uninitialised `linebuf` starts with: OK gives success. */
  lemma EchoOnSilentModem()
    ensures EchoOnSpec([], OK + [NUL] + seq(253, _ => 0), false).step.ret == 0
    ensures EchoOnSpec([], seq(256, _ => 0), false).step.ret == 1
  {
    var good: seq<byte> := OK + [NUL] + seq(253, _ => 0);
    CViewOfTerminated(OK, seq(253, _ => 0));
    assert CView(OK) == OK;
    assert Overlay(good, Frame([], LINE_BUFFER)) == good;
    var zeros: seq<byte> := seq(256, _ => 0);
    assert Overlay(zeros, Frame([], LINE_BUFFER)) == zeros;
    assert CView(zeros) == [];
  }

  /** GSMSendMessage when the modem behaves: the echo, a blank line, the
   *  "> " prompt, the text read back within one burst of under 256 bytes,
   *  then the +CMGS line. The command, the text and Ctrl-Z go out, and the
   *  channel is left after that line. */
  lemma SendMessageOfAnswer(number: seq<byte>, msg: seq<byte>, echo: seq<byte>, readback: seq<byte>,
                            confirm: seq<byte>, next: seq<Event>)
    requires |number| <= MAX_NUMBER && |msg| <= MAX_MESSAGE
    requires Fits(echo) && |readback| < LINE_BUFFER && Fits(confirm)
    ensures var input := Line(echo) + (Line([]) + ([PROMPT_GT, SPACE] + (readback + [TIMEOUT] + (Line(confirm) + next))));
      var s := SendMessageSpec(input, number, msg, false);
      s.ret == 0 && s.rest == next && s.sent == CmgsCommand(number) + msg + [CTRL_Z]
  {
    var back := readback + [TIMEOUT] + (Line(confirm) + next);
    PromptOfAnswer(CmgsCommand(number), echo, back);
    ReadBackOfAnswer(readback, confirm, next);
  }

  /** The "> " prompt after the echo and a blank line is accepted. */
  lemma PromptOfAnswer(cmd: seq<byte>, echo: seq<byte>, back: seq<Event>)
    requires Fits(echo)
    ensures var p := PromptSpec(Line(echo) + (Line([]) + ([PROMPT_GT, SPACE] + back)), cmd);
      p.ret == 0 && p.rest == back && p.sent == cmd
  {
    var r1 := [PROMPT_GT, SPACE] + back;
    ReadLine(echo, Line([]) + r1);
    ReadLine([], r1);
    assert Run(r1) >= 2 by {
      assert r1[1..][1..] == back;
    }
    assert r1[2..] == back;
  }

  /** The text read back in one burst and the line after it are skipped. */
  lemma ReadBackOfAnswer(readback: seq<byte>, confirm: seq<byte>, next: seq<Event>)
    requires |readback| < LINE_BUFFER && Fits(confirm)
    ensures AfterLine(AfterBytes(readback + [TIMEOUT] + (Line(confirm) + next), LINE_BUFFER)) == next
  {
    var back := readback + [TIMEOUT] + (Line(confirm) + next);
    RunOfBurst(readback, Line(confirm) + next);
    assert back[|readback|..] == [TIMEOUT] + (Line(confirm) + next);
    ReadLine(confirm, next);
  }

  /** GSMWaitSignal(3) against a modem that keeps answering "not
   *  registered" makes exactly three checks and returns 1. */
  lemma WaitNotRegistered(echo: seq<byte>, n: nat, stat: nat, trailer: seq<byte>, next: seq<Event>)
    requires Fits(echo) && stat <= LONG_MAX && |Decimal(n)| + |Decimal(stat)| < 248
    requires stat != 1 && stat != 5
    ensures var a3 := Answer(echo, CregLine(n, stat), trailer, next);
      var a2 := Answer(echo, CregLine(n, stat), trailer, a3);
      var w := WaitSpec(Answer(echo, CregLine(n, stat), trailer, a2), 3, false);
      w.checks == 3 && w.step.ret == 1 && w.step.rest == next &&
      w.step.sent == CREG_MESSAGE + CREG_MESSAGE + CREG_MESSAGE
  {
    var a3 := Answer(echo, CregLine(n, stat), trailer, next);
    var a2 := Answer(echo, CregLine(n, stat), trailer, a3);
    var a1 := Answer(echo, CregLine(n, stat), trailer, a2);
    CregOfAnswer(echo, n, stat, trailer, next);
    CregOfAnswer(echo, n, stat, trailer, a3);
    CregOfAnswer(echo, n, stat, trailer, a2);
    CheckSignalOfRefusal(a3, next, CREG_MESSAGE);
    CheckSignalOfRefusal(a2, a3, CREG_MESSAGE);
    CheckSignalOfRefusal(a1, a2, CREG_MESSAGE);
    WaitOnRefusal(a3, 0, 1);
    var w3 := WaitLoop(a3, 1, 1);
    assert w3.checks == 1 && w3.step.ret == 1 && w3.step.rest == next && w3.step.sent == CREG_MESSAGE;
    WaitOnRefusal(a2, 1, 1);
    var w2 := WaitLoop(a2, 2, 1);
    assert w2.checks == 2 && w2.step.ret == 1 && w2.step.rest == next && w2.step.sent == CREG_MESSAGE + CREG_MESSAGE;
    WaitOnRefusal(a1, 2, 1);
    AppendAssoc(CREG_MESSAGE, CREG_MESSAGE, CREG_MESSAGE);
  }

  /** One round of GSMWaitSignal that is not the last: the check said "try
   *  again". */
  lemma WaitOnRefusal(input: seq<Event>, next: int, res: int)
    requires next >= 0 && CheckSignalSpec(input, false).ret >= 1
    ensures var c := CheckSignalSpec(input, false);
      var w := WaitLoop(input, next + 1, res); var v := WaitLoop(c.rest, next, c.ret);
      w.checks == v.checks + 1 && w.step.ret == v.step.ret && w.step.rest == v.step.rest &&
      w.step.sent == c.sent + v.step.sent
  {
  }

  lemma CheckSignalOfRefusal(input: seq<Event>, rest: seq<Event>, sent: seq<byte>)
    requires var c := CregStep(input); c.ret == 1 && c.rest == rest && c.sent == sent
    ensures var c := CheckSignalSpec(input, false); c.ret == 1 && c.rest == rest && c.sent == sent
  {
  }
}
