/** The AT commands the modem code sends and its verdicts on the lines the
 *  modem sends back: the echo check, +CREG and +CSQ (3GPP TS 27.007 sections
 *  7.2 and 8.5), the OK/ERROR final result codes, and +CGREG.
 */
module Replies {
  import opened Bytes

  const E1_MESSAGE: seq<byte> := [65, 84, 69, 49, 13, 10]  // "ATE1\r\n"
  const CREG_MESSAGE: seq<byte> := [65, 84, 43, 67, 82, 69, 71, 63, 13, 10]  // "AT+CREG?\r\n"
  const CREG_MESSAGE_RES: seq<byte> := [43, 67, 82, 69, 71, 58, 32]  // "+CREG: "
  const CREG_MESSAGE_RES_LEN: int := 10
  const CSQ_MESSAGE: seq<byte> := [65, 84, 43, 67, 83, 81, 13, 10]  // "AT+CSQ\r\n"
  const CSQ_MESSAGE_RES: seq<byte> := [43, 67, 83, 81, 58, 32]  // "+CSQ: "
  const CSQ_MESSAGE_RES_LEN: int := 9
  const CMGF_MESSAGE: seq<byte> := [65, 84, 43, 67, 77, 71, 70, 61, 49, 13, 10]  // "AT+CMGF=1\r\n"
  const CMGS_PREFIX: seq<byte> := [65, 84, 43, 67, 77, 71, 83, 61]  // "AT+CMGS="
  const CRLF: seq<byte> := [CR, LF]
  const WAKE_UP_MESSAGE: seq<byte> := CRLF
  const CGATT_MESSAGE: seq<byte> := [65, 84, 43, 67, 71, 65, 84, 84, 61, 49, 13, 10]  // "AT+CGATT=1\r\n"
  const CGREG_MESSAGE: seq<byte> := [65, 84, 43, 67, 71, 82, 69, 71, 63, 13, 10]  // "AT+CGREG?\r\n"
  /** strlen("+CGREG: 0,0") */
  const CGREG_MIN_LEN: int := 11
  /** The prefix of a +CGREG reply (TS 27.007 section 10.1.20). */
  const CGREG_RES: seq<byte> := [43, 67, 71, 82, 69, 71, 58, 32]  // "+CGREG: "
  const OK: seq<byte> := [79, 75]  // "OK"
  const ERROR: seq<byte> := [69, 82, 82, 79, 82]  // "ERROR"

  /** "AT+CMGS=<number>\r\n": a C string (it fits `char cmd[256]` for the
   *  numbers of at most 80 characters it is built from). */
  function CmgsCommand(number: seq<byte>): (c: seq<byte>)
    ensures |c| == |number| + 10
    ensures CString(number) ==> CString(c)
  {
    CMGS_PREFIX + number + CRLF
  }

  /** GSMSendCommand's verdict: `count` is what get_line returned and `line`
   *  the C string then in the buffer. */
  function EchoVerdict(count: int, line: seq<byte>, msg: seq<byte>): int
  {
    if count <= 0 then 1
    else if StrnEqual(line, msg, |line|) then 0
    else 1
  }

  /** The echo is accepted exactly when a non-empty line was read whose text
   *  is a prefix of the command sent. */
  lemma EchoVerdictIsPrefix(count: int, line: seq<byte>, msg: seq<byte>)
    ensures EchoVerdict(count, line, msg) == 0 <==> count > 0 && line <= msg
    ensures EchoVerdict(count, line, msg) == 0 || EchoVerdict(count, line, msg) == 1
  {
    if count > 0 && |msg| > |line| {
      assert Take(msg, |line|) == msg[..|line|];
    }
  }

  /** The first half of GSMCheckSignal: -1 for a malformed reply, 1 when the
   *  modem is not registered (home network 1 or roaming 5), 0 to go on. */
  function CregVerdict(count: int, line: seq<byte>): (r: int)
    ensures r in {-1, 0, 1}
  {
    if count < CREG_MESSAGE_RES_LEN then -1
    else if !StrnEqual(line, CREG_MESSAGE_RES, |CREG_MESSAGE_RES|) then -1
    else if COMMA !in line then -1
    else
      var status := Strtol(line[FirstIndex(line, COMMA) + 1..]);
      if status != 1 && status != 5 then 1 else 0
  }

  /** The second half: -1 for a malformed reply, 2 when the signal level at
   *  offset 6 is below 5, 0 when it is good enough. */
  function CsqVerdict(count: int, line: seq<byte>): (r: int)
    ensures r in {-1, 0, 2}
  {
    if count < CSQ_MESSAGE_RES_LEN then -1
    else if !StrnEqual(line, CSQ_MESSAGE_RES, |CSQ_MESSAGE_RES|) then -1
    else if Strtol(line[6..]) < 5 then 2
    else 0
  }

  /** A +CREG line in the format of TS 27.007: "+CREG: <n>,<stat>". */
  function CregLine(n: nat, stat: nat): seq<byte>
  {
    CREG_MESSAGE_RES + Decimal(n) + [COMMA] + Decimal(stat)
  }

  /** A +CSQ line in the format of TS 27.007: "+CSQ: <rssi>,<ber>". */
  function CsqLine(rssi: nat, ber: nat): seq<byte>
  {
    CSQ_MESSAGE_RES + Decimal(rssi) + [COMMA] + Decimal(ber)
  }

  lemma DecimalHasNoComma(n: nat)
    ensures COMMA !in Decimal(n) && NUL !in Decimal(n)
  {
    var d := Decimal(n);
    forall i | 0 <= i < |d| ensures d[i] != COMMA && d[i] != NUL { assert IsDigit(d[i]); }
  }

  /** A well-formed +CREG reply passes the checks and is classified by its
   *  second field alone: registered (home 1, roaming 5) or not. */
  lemma {:induction false} CregOfWellFormedLine(n: nat, stat: nat)
    requires stat <= LONG_MAX
    ensures var line := CregLine(n, stat);
      CregVerdict(|line|, line) == if stat == 1 || stat == 5 then 0 else 1
  {
    var line := CregLine(n, stat);
    var d := Decimal(n);
    DecimalHasNoComma(n);
    assert line == CREG_MESSAGE_RES + d + [COMMA] + Decimal(stat);
    assert Take(line, 7) == CREG_MESSAGE_RES;
    assert COMMA !in CREG_MESSAGE_RES;
    var k := |CREG_MESSAGE_RES| + |d|;
    assert line[k] == COMMA;
    assert COMMA !in line[..k] by {
      assert line[..k] == CREG_MESSAGE_RES + d;
    }
    assert line[k + 1..] == Decimal(stat) + [];
    StrtolDecimal(stat, []);
    CregVerdictAtComma(line, k);
  }

  /** A +CREG line whose first comma is at `k` is classified by the number
   *  after that comma. */
  lemma CregVerdictAtComma(line: seq<byte>, k: nat)
    requires |line| >= CREG_MESSAGE_RES_LEN && Take(line, 7) == CREG_MESSAGE_RES
    requires k < |line| && line[k] == COMMA && COMMA !in line[..k]
    ensures var stat := Strtol(line[k + 1..]);
      CregVerdict(|line|, line) == if stat == 1 || stat == 5 then 0 else 1
  {
    FirstIndexUnique(line, COMMA, k);
  }

  /** A well-formed +CSQ reply is classified by its signal level: weak below 5. */
  lemma {:induction false} CsqOfWellFormedLine(rssi: nat, ber: nat)
    requires rssi <= LONG_MAX
    ensures var line := CsqLine(rssi, ber);
      CsqVerdict(|line|, line) == if rssi < 5 then 2 else 0
  {
    var line := CsqLine(rssi, ber);
    assert Take(line, 6) == CSQ_MESSAGE_RES;
    assert line[6..] == Decimal(rssi) + ([COMMA] + Decimal(ber));
    StrtolDecimal(rssi, [COMMA] + Decimal(ber));
  }

  /** Malformed +CREG replies are errors: too short, another prefix, no comma. */
  lemma CregRejectsMalformed(count: int, line: seq<byte>)
    ensures count < CREG_MESSAGE_RES_LEN ==> CregVerdict(count, line) == -1
    ensures Take(line, 7) != CREG_MESSAGE_RES ==> CregVerdict(count, line) == -1
    ensures COMMA !in line ==> CregVerdict(count, line) == -1
  {
  }

  /** A reply shorter than "+CSQ: 0,0", or one that does not start with
   *  "+CSQ: ", is an error. */
  lemma CsqRejectsMalformed(count: int, line: seq<byte>)
    ensures count < CSQ_MESSAGE_RES_LEN ==> CsqVerdict(count, line) == -1
    ensures Take(line, 6) != CSQ_MESSAGE_RES ==> CsqVerdict(count, line) == -1
  {
  }

  /** GSMSetSMSMode and GSMAttachGPRS: 0 only for a line reading exactly OK. */
  function ReplyVerdict(count: int, line: seq<byte>): int
  {
    if count <= 0 then 1
    else if line == ERROR then 1
    else if line == OK then 0
    else 1
  }

  /** The reply is accepted exactly when it is OK; ERROR, anything else and a
   *  failed read are all refused. */
  lemma ReplyVerdictIsOk(count: int, line: seq<byte>)
    ensures ReplyVerdict(count, line) == 0 <==> count > 0 && line == OK
    ensures ReplyVerdict(count, line) == 0 || ReplyVerdict(count, line) == 1
  {
  }

  /** What a piece of C code does: returns a value, or has undefined behaviour
   *  (reads through a NULL pointer or past the end of a buffer). */
  datatype CResult = Returns(code: int) | Undefined

  /** `count < strlen(...)` compares the signed count with an unsigned
   *  `size_t`, so a negative count becomes a huge value (32-bit `size_t`). */
  function AsUnsigned(count: int): int
    requires LONG_MIN <= count <= LONG_MAX
  {
    if count < 0 then count + 0x1_0000_0000 else count
  }

  /** GSMCheckGPRS as written: `buf` is the whole line buffer after the two
   *  reads; the character after the first comma decides. */
  function GprsVerdictAsWritten(count: int, buf: seq<byte>): (r: CResult)
    requires LONG_MIN <= count <= LONG_MAX
    ensures r.Returns? ==> r.code in {-1, 0, 1}
    ensures 0 <= count < CGREG_MIN_LEN ==> r == Returns(-1)
    ensures count < 0 ==> r != Returns(-1)
  {
    if AsUnsigned(count) < CGREG_MIN_LEN then Returns(-1)
    else
      var line := CView(buf);
      if COMMA !in line then Undefined                       // strchr gave NULL
      else
        var k := FirstIndex(line, COMMA);
        if k + 1 >= |buf| then Undefined                     // past the buffer
        else if buf[k + 1] != 49 && buf[k + 1] != 53 then Returns(1)  // '1', '5'
        else Returns(0)
  }

  /** A failed read slips through the length guard: with the buffer still
   *  holding an old "…,1" the modem is reported attached, whatever follows
   *  that old line in the buffer. */
  lemma GprsTimeoutPassesGuard(rest: seq<byte>)
    ensures GprsVerdictAsWritten(-1, STALE_CGREG + [NUL] + rest) == Returns(0)
  {
    var s := STALE_CGREG;
    var buf := s + [NUL] + rest;
    assert AsUnsigned(-1) >= CGREG_MIN_LEN;
    assert CView(buf) == s by {
      assert CString(s);
      CViewOfTerminated(s, rest);
      CViewOfCString(s);
    }
    assert s[9] == COMMA && s[..9] == [43, 67, 71, 82, 69, 71, 58, 32, 48];
    FirstIndexUnique(s, COMMA, 9);
    assert buf[10] == 49;
  }

  /** "+CGREG: 0,1" */
  const STALE_CGREG: seq<byte> := [43, 67, 71, 82, 69, 71, 58, 32, 48, 44, 49]
  /** "+CGREG: 0 1" */
  const NO_COMMA_CGREG: seq<byte> := [43, 67, 71, 82, 69, 71, 58, 32, 48, 32, 49]

  /** A long enough reply without a comma makes strchr return NULL, which the
   *  code then dereferences. */
  lemma GprsNoCommaIsUndefined()
    ensures GprsVerdictAsWritten(11, NO_COMMA_CGREG + [NUL]) == Undefined
  {
    var s := NO_COMMA_CGREG;
    var buf := s + [NUL];
    assert CView(buf) == s by {
      assert CString(s);
      CViewOfTerminated(s, []);
      CViewOfCString(s);
      assert s + [NUL] + [] == buf;
    }
    assert COMMA !in s;
  }

  /** GSMCheckGPRS as evidently intended: a failed or short read and a reply
   *  without a comma are errors (-1), as in GSMCheckSignal. */
  function GprsVerdict(count: int, line: seq<byte>): (r: int)
    ensures r in {-1, 0, 1}
    ensures count < CGREG_MIN_LEN ==> r == -1
    ensures COMMA !in line ==> r == -1
  {
    if count < CGREG_MIN_LEN then -1
    else if COMMA !in line then -1
    else
      var k := FirstIndex(line, COMMA);
      if k + 1 >= |line| then 1
      else if line[k + 1] != 49 && line[k + 1] != 53 then 1
      else 0
  }

  /** The intended check agrees with the code whenever the code is defined
   *  and its guard works as meant. */
  lemma GprsVerdictAgrees(count: int, stored: seq<byte>, rest: seq<byte>)
    requires CGREG_MIN_LEN <= count <= LONG_MAX && CString(stored) && COMMA in stored
    ensures GprsVerdictAsWritten(count, stored + [NUL] + rest) == Returns(GprsVerdict(count, stored))
  {
    CViewOfTerminated(stored, rest);
    CViewOfCString(stored);
    var buf := stored + [NUL] + rest;
    var k := FirstIndex(stored, COMMA);
    if k + 1 == |stored| { assert buf[k + 1] == NUL; }
  }

  /** A +CGREG line in the format of TS 27.007: "+CGREG: <n>,<stat>". */
  function CgregLine(n: nat, stat: nat): seq<byte>
  {
    CGREG_RES + Decimal(n) + [COMMA] + Decimal(stat)
  }

  /** For a one-digit state in a +CGREG line, attached means 1 or 5. */
  lemma GprsOfWellFormedLine(n: nat, stat: nat)
    requires stat < 10
    ensures var line := CgregLine(n, stat);
      GprsVerdict(|line|, line) == if stat == 1 || stat == 5 then 0 else 1
  {
    var line := CgregLine(n, stat);
    DecimalHasNoComma(n);
    var k := |CGREG_RES| + |Decimal(n)|;
    assert line[k] == COMMA;
    assert line[..k] == CGREG_RES + Decimal(n);
    assert COMMA !in CGREG_RES;
    FirstIndexUnique(line, COMMA, k);
    assert line[k + 1] == 48 + stat;
  }
}
