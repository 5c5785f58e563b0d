/** The serial port, seen from the protocol code: a stream of incoming events
 *  and a record of every byte written. The operating-system calls (select,
 *  read, write) are replaced by this abstract channel.
 */
module Serial {
  import opened Bytes

  /** A quiet window: no data arrived within the wait the caller asked for
   *  (select returned 0), or the wait or the read failed. */
  const TIMEOUT: int := -1

  /** One incoming event: a data byte, or the TIMEOUT marker. */
  type Event = e: int | -1 <= e < 256

  /** The number of data bytes available before the next quiet window. */
  function Run(input: seq<Event>): (n: nat)
    ensures n <= |input|
    ensures forall i :: 0 <= i < n ==> input[i] != TIMEOUT
    ensures n < |input| ==> input[n] == TIMEOUT
  {
    if input == [] || input[0] == TIMEOUT then 0 else 1 + Run(input[1..])
  }

  /** The events left once the quiet window at the head (if any) has passed;
   *  with nothing pending the line stays silent. */
  function PastQuiet(input: seq<Event>): seq<Event>
  {
    if input == [] then [] else input[1..]
  }

  /** What SERGetByteTimeout returns: the next byte, or -1 on a quiet window. */
  function NextByte(input: seq<Event>): int
  {
    if input == [] then TIMEOUT else input[0]
  }

  /** The events left after SERGetByteTimeout. */
  function AfterByte(input: seq<Event>): seq<Event>
  {
    if input == [] then [] else input[1..]
  }

  /** How many bytes SERGetBytesTimeout delivers for a request of `count`. */
  function BytesRead(input: seq<Event>, count: nat): nat
  {
    Min(count, Run(input))
  }

  /** The events left after SERGetBytesTimeout: a request it fills leaves the
   *  rest untouched; one it cannot fill also uses up the quiet window. */
  function AfterBytes(input: seq<Event>, count: nat): seq<Event>
  {
    var done := BytesRead(input, count);
    if done == count then input[done..] else PastQuiet(input[done..])
  }

  /** The events left after SERFlushChannel: all data up to and including
   *  the first quiet window is discarded. */
  function Flushed(input: seq<Event>): (r: seq<Event>)
    ensures |r| < |input| || input == []
  {
    PastQuiet(input[Run(input)..])
  }

  /** An open serial port. */
  class SerialPort {
    /** Events the modem has yet to deliver, in arrival order. */
    var input: seq<Event>
    /** Every byte written to the modem, in order. */
    var output: seq<byte>

    constructor (pending: seq<Event>)
      ensures input == pending && output == []
    {
      input := pending;
      output := [];
    }

    /** SERGetByteTimeout: wait one window for a byte. */
    method GetByteTimeout() returns (c: int)
      modifies this`input
      ensures -1 <= c < 256
      ensures c == -1 <==> (old(input) == [] || old(input)[0] == TIMEOUT)
      ensures c != -1 ==> c == old(input)[0]
      ensures c == NextByte(old(input)) && input == AfterByte(old(input))
    {
      if input == [] {
        c := TIMEOUT;
      } else {
        c := input[0];
        input := input[1..];
      }
    }

    /** SERGetBytesTimeout: read up to `count` bytes into `buffer`, waiting at
     *  most one window for each burst. A read may deliver fewer bytes than
     *  are available; however the bursts fall, the outcome is the same. */
    method GetBytesTimeout(buffer: array<byte>, count: int) returns (done: int)
      requires 0 <= count <= buffer.Length
      modifies this`input, buffer
      ensures 0 <= done <= count
      ensures done == BytesRead(old(input), count)
      ensures done < count ==> done == Run(old(input))
      ensures forall i :: 0 <= i < done ==> buffer[i] == old(input)[i]
      ensures forall i :: done <= i < buffer.Length ==> buffer[i] == old(buffer[i])
      ensures input == AfterBytes(old(input), count)
    {
      ghost var in0 := input;
      var left := count;
      done := 0;
      while left != 0
        invariant 0 <= done && 0 <= left && done + left == count
        invariant done <= Run(in0) && input == in0[done..]
        invariant forall i :: 0 <= i < done ==> buffer[i] == in0[i]
        invariant forall i :: done <= i < buffer.Length ==> buffer[i] == old(buffer[i])
        decreases left
      {
        if input == [] || input[0] == TIMEOUT {
          // select saw a quiet window (or the read failed): stop with what we have
          RunSuffix(in0, done);
          input := PastQuiet(input);
          return;
        }
        RunSuffix(in0, done);
        var avail := Run(input);
        var ret :| 1 <= ret <= left && ret <= avail;
        forall i | 0 <= i < ret {
          buffer[done + i] := input[i];
        }
        input := input[ret..];
        done := done + ret;
        left := left - ret;
      }
    }

    /** SERFlushChannel: discard input until a whole window passes quietly. */
    method FlushChannel()
      modifies this`input
      ensures input == Flushed(old(input))
    {
      ghost var in0 := input;
      ghost var k := 0;
      while true
        invariant k <= Run(in0) && input == in0[k..]
        decreases |input|
      {
        RunSuffix(in0, k);
        if input == [] || input[0] == TIMEOUT {
          input := PastQuiet(input);
          return;
        }
        // read(fd, buf, 256): whatever part of the burst is there
        var avail := Run(input);
        var ret :| 1 <= ret <= 256 && ret <= avail;
        input := input[ret..];
        k := k + ret;
      }
    }

    /** SERPutString: write a C string. */
    method PutString(s: seq<byte>)
      requires CString(s)
      modifies this`output
      ensures output == old(output) + s
    {
      output := output + s;
    }

    /** SERPutByte: write one byte. */
    method PutByte(b: byte)
      modifies this`output
      ensures output == old(output) + [b]
    {
      output := output + [b];
    }
  }

  /** Dropping `k` data bytes from the front shortens the burst by `k`. */
  lemma RunSuffix(input: seq<Event>, k: nat)
    requires k <= Run(input)
    ensures Run(input[k..]) == Run(input) - k
  {
    if k > 0 {
      assert input[k..] == input[1..][k - 1..];
      RunSuffix(input[1..], k - 1);
    }
  }

  /** The rates SERGetBaud recognises, in the order it tries them. */
  const BAUD_RATES: seq<nat> :=
    [0, 50, 75, 110, 134, 150, 200, 300, 1200, 1800, 2400, 4800, 9600,
     19200, 38400, 57600, 115200, 230400]

  /** The names SERGetBaud compares against, as the bytes of each literal. */
  const B0_NAME: seq<byte> := [48]  // "0"
  const B50_NAME: seq<byte> := [53, 48]  // "50"
  const B75_NAME: seq<byte> := [55, 53]  // "75"
  const B110_NAME: seq<byte> := [49, 49, 48]  // "110"
  const B134_NAME: seq<byte> := [49, 51, 52]  // "134"
  const B150_NAME: seq<byte> := [49, 53, 48]  // "150"
  const B200_NAME: seq<byte> := [50, 48, 48]  // "200"
  const B300_NAME: seq<byte> := [51, 48, 48]  // "300"
  const B1200_NAME: seq<byte> := [49, 50, 48, 48]  // "1200"
  const B1800_NAME: seq<byte> := [49, 56, 48, 48]  // "1800"
  const B2400_NAME: seq<byte> := [50, 52, 48, 48]  // "2400"
  const B4800_NAME: seq<byte> := [52, 56, 48, 48]  // "4800"
  const B9600_NAME: seq<byte> := [57, 54, 48, 48]  // "9600"
  const B19200_NAME: seq<byte> := [49, 57, 50, 48, 48]  // "19200"
  const B38400_NAME: seq<byte> := [51, 56, 52, 48, 48]  // "38400"
  const B57600_NAME: seq<byte> := [53, 55, 54, 48, 48]  // "57600"
  const B115200_NAME: seq<byte> := [49, 49, 53, 50, 48, 48]  // "115200"
  const B230400_NAME: seq<byte> := [50, 51, 48, 52, 48, 48]  // "230400"

  /** SERGetBaud: the status code and the resulting `*serial_speed`, given its
   *  previous value `speed`. A rate is represented by the number it names. */
  function GetBaud(s: seq<byte>, speed: int): (r: (int, int))
    ensures r.0 == 0 || r.0 == 1
    ensures r.0 == 1 ==> r.1 == speed
    ensures r.0 == 0 ==> r.1 in BAUD_RATES
  {
    if s == B0_NAME then (0, 0)
    else if s == B50_NAME then (0, 50)
    else if s == B75_NAME then (0, 75)
    else if s == B110_NAME then (0, 110)
    else if s == B134_NAME then (0, 134)
    else if s == B150_NAME then (0, 150)
    else if s == B200_NAME then (0, 200)
    else if s == B300_NAME then (0, 300)
    else if s == B1200_NAME then (0, 1200)
    else if s == B1800_NAME then (0, 1800)
    else if s == B2400_NAME then (0, 2400)
    else if s == B4800_NAME then (0, 4800)
    else if s == B9600_NAME then (0, 9600)
    else if s == B19200_NAME then (0, 19200)
    else if s == B38400_NAME then (0, 38400)
    else if s == B57600_NAME then (0, 57600)
    else if s == B115200_NAME then (0, 115200)
    else if s == B230400_NAME then (0, 230400)
    else (1, speed)
  }

  /** The names in the same order as BAUD_RATES. */
  const BAUD_NAMES: seq<seq<byte>> :=
    [B0_NAME, B50_NAME, B75_NAME, B110_NAME, B134_NAME, B150_NAME, B200_NAME,
     B300_NAME, B1200_NAME, B1800_NAME, B2400_NAME, B4800_NAME, B9600_NAME,
     B19200_NAME, B38400_NAME, B57600_NAME, B115200_NAME, B230400_NAME]

  /** Each name is the decimal spelling of its rate. */
  lemma BaudNameIsDecimal(i: nat)
    requires i < |BAUD_RATES|
    ensures |BAUD_NAMES| == |BAUD_RATES| && Decimal(BAUD_RATES[i]) == BAUD_NAMES[i]
  {
    if i < 3 { BaudNameIsDecimal0(i); }
    else if i < 6 { BaudNameIsDecimal1(i); }
    else if i < 9 { BaudNameIsDecimal2(i); }
    else if i < 12 { BaudNameIsDecimal3(i); }
    else if i < 15 { BaudNameIsDecimal4(i); }
    else { BaudNameIsDecimal5(i); }
  }

  /** Each name is accepted with its own rate. */
  lemma GetBaudOfName(i: nat, speed: int)
    requires i < |BAUD_NAMES|
    ensures GetBaud(BAUD_NAMES[i], speed) == (0, BAUD_RATES[i])
  {
    if i < 3 { GetBaudOfName0(i, speed); }
    else if i < 6 { GetBaudOfName1(i, speed); }
    else if i < 9 { GetBaudOfName2(i, speed); }
    else if i < 12 { GetBaudOfName3(i, speed); }
    else if i < 15 { GetBaudOfName4(i, speed); }
    else { GetBaudOfName5(i, speed); }
  }

  // The two lemmas above are split into six groups of three rates each only
  // to keep each proof small for the solver.

  lemma BaudNameIsDecimal0(i: nat)
    requires 0 <= i < 3
    ensures Decimal(BAUD_RATES[i]) == BAUD_NAMES[i]
  {
    if i == 0 { assert Decimal(0) == B0_NAME; }
    else if i == 1 { assert Decimal(50) == B50_NAME; }
    else if i == 2 { assert Decimal(75) == B75_NAME; }
  }

  lemma GetBaudOfName0(i: nat, speed: int)
    requires 0 <= i < 3
    ensures GetBaud(BAUD_NAMES[i], speed) == (0, BAUD_RATES[i])
  {
    if i == 0 { assert GetBaud(B0_NAME, speed) == (0, 0); }
    else if i == 1 { assert GetBaud(B50_NAME, speed) == (0, 50); }
    else if i == 2 { assert GetBaud(B75_NAME, speed) == (0, 75); }
  }

  lemma BaudNameIsDecimal1(i: nat)
    requires 3 <= i < 6
    ensures Decimal(BAUD_RATES[i]) == BAUD_NAMES[i]
  {
    if i == 3 { assert Decimal(110) == B110_NAME; }
    else if i == 4 { assert Decimal(134) == B134_NAME; }
    else if i == 5 { assert Decimal(150) == B150_NAME; }
  }

  lemma GetBaudOfName1(i: nat, speed: int)
    requires 3 <= i < 6
    ensures GetBaud(BAUD_NAMES[i], speed) == (0, BAUD_RATES[i])
  {
    if i == 3 { assert GetBaud(B110_NAME, speed) == (0, 110); }
    else if i == 4 { assert GetBaud(B134_NAME, speed) == (0, 134); }
    else if i == 5 { assert GetBaud(B150_NAME, speed) == (0, 150); }
  }

  lemma BaudNameIsDecimal2(i: nat)
    requires 6 <= i < 9
    ensures Decimal(BAUD_RATES[i]) == BAUD_NAMES[i]
  {
    if i == 6 { assert Decimal(200) == B200_NAME; }
    else if i == 7 { assert Decimal(300) == B300_NAME; }
    else if i == 8 { assert Decimal(1200) == B1200_NAME; }
  }

  lemma GetBaudOfName2(i: nat, speed: int)
    requires 6 <= i < 9
    ensures GetBaud(BAUD_NAMES[i], speed) == (0, BAUD_RATES[i])
  {
    if i == 6 { assert GetBaud(B200_NAME, speed) == (0, 200); }
    else if i == 7 { assert GetBaud(B300_NAME, speed) == (0, 300); }
    else if i == 8 { assert GetBaud(B1200_NAME, speed) == (0, 1200); }
  }

  lemma BaudNameIsDecimal3(i: nat)
    requires 9 <= i < 12
    ensures Decimal(BAUD_RATES[i]) == BAUD_NAMES[i]
  {
    if i == 9 { assert Decimal(1800) == B1800_NAME; }
    else if i == 10 { assert Decimal(2400) == B2400_NAME; }
    else if i == 11 { assert Decimal(4800) == B4800_NAME; }
  }

  lemma GetBaudOfName3(i: nat, speed: int)
    requires 9 <= i < 12
    ensures GetBaud(BAUD_NAMES[i], speed) == (0, BAUD_RATES[i])
  {
    if i == 9 { assert GetBaud(B1800_NAME, speed) == (0, 1800); }
    else if i == 10 { assert GetBaud(B2400_NAME, speed) == (0, 2400); }
    else if i == 11 { assert GetBaud(B4800_NAME, speed) == (0, 4800); }
  }

  lemma BaudNameIsDecimal4(i: nat)
    requires 12 <= i < 15
    ensures Decimal(BAUD_RATES[i]) == BAUD_NAMES[i]
  {
    if i == 12 { assert Decimal(9600) == B9600_NAME; }
    else if i == 13 { assert Decimal(19200) == B19200_NAME; }
    else if i == 14 { assert Decimal(38400) == B38400_NAME; }
  }

  lemma GetBaudOfName4(i: nat, speed: int)
    requires 12 <= i < 15
    ensures GetBaud(BAUD_NAMES[i], speed) == (0, BAUD_RATES[i])
  {
    if i == 12 { assert GetBaud(B9600_NAME, speed) == (0, 9600); }
    else if i == 13 { assert GetBaud(B19200_NAME, speed) == (0, 19200); }
    else if i == 14 { assert GetBaud(B38400_NAME, speed) == (0, 38400); }
  }

  lemma BaudNameIsDecimal5(i: nat)
    requires 15 <= i < 18
    ensures Decimal(BAUD_RATES[i]) == BAUD_NAMES[i]
  {
    if i == 15 { assert Decimal(57600) == B57600_NAME; }
    else if i == 16 { Decimal115200(); }
    else if i == 17 { Decimal230400(); }
  }

  lemma Decimal115200() ensures Decimal(115200) == B115200_NAME
  {
    assert Decimal(1152) == [49, 49, 53, 50];
  }

  lemma Decimal230400() ensures Decimal(230400) == B230400_NAME
  {
    assert Decimal(2304) == [50, 51, 48, 52];
  }

  lemma GetBaudOfName5(i: nat, speed: int)
    requires 15 <= i < 18
    ensures GetBaud(BAUD_NAMES[i], speed) == (0, BAUD_RATES[i])
  {
    if i == 15 { assert GetBaud(B57600_NAME, speed) == (0, 57600); }
    else if i == 16 { assert GetBaud(B115200_NAME, speed) == (0, 115200); }
    else if i == 17 { assert GetBaud(B230400_NAME, speed) == (0, 230400); }
  }

  /** Every listed rate is recognised from its decimal name. */
  lemma GetBaudOfRate(i: nat, speed: int)
    requires i < |BAUD_RATES|
    ensures GetBaud(Decimal(BAUD_RATES[i]), speed) == (0, BAUD_RATES[i])
  {
    BaudNameIsDecimal(i);
    GetBaudOfName(i, speed);
  }

  /** Whatever SERGetBaud accepts is one of the listed names, stored with its rate. */
  lemma GetBaudFindsName(s: seq<byte>, speed: int) returns (i: nat)
    requires GetBaud(s, speed).0 == 0
    ensures i < |BAUD_NAMES| && s == BAUD_NAMES[i] && GetBaud(s, speed).1 == BAUD_RATES[i]
  {
    if s == B0_NAME { i := 0; }
    else if s == B50_NAME { i := 1; }
    else if s == B75_NAME { i := 2; }
    else if s == B110_NAME { i := 3; }
    else if s == B134_NAME { i := 4; }
    else if s == B150_NAME { i := 5; }
    else if s == B200_NAME { i := 6; }
    else if s == B300_NAME { i := 7; }
    else if s == B1200_NAME { i := 8; }
    else if s == B1800_NAME { i := 9; }
    else if s == B2400_NAME { i := 10; }
    else if s == B4800_NAME { i := 11; }
    else if s == B9600_NAME { i := 12; }
    else if s == B19200_NAME { i := 13; }
    else if s == B38400_NAME { i := 14; }
    else if s == B57600_NAME { i := 15; }
    else if s == B115200_NAME { i := 16; }
    else if s == B230400_NAME { i := 17; }
  }

  /** A string is accepted exactly when it is the decimal name of a listed
   *  rate, and the rate stored is the one it names. */
  lemma GetBaudAccepts(s: seq<byte>, speed: int)
    ensures GetBaud(s, speed).0 == 0 <==> exists i :: 0 <= i < |BAUD_RATES| && s == Decimal(BAUD_RATES[i])
    ensures GetBaud(s, speed).0 == 0 ==> s == Decimal(GetBaud(s, speed).1)
  {
    if GetBaud(s, speed).0 == 0 {
      var i := GetBaudFindsName(s, speed);
      BaudNameIsDecimal(i);
    } else {
      forall i | 0 <= i < |BAUD_RATES| ensures s != Decimal(BAUD_RATES[i]) {
        BaudNameIsDecimal(i);
        GetBaudOfName(i, speed);
      }
    }
  }

  /** Near misses are rejected and leave the speed as it was: an unlisted
   *  rate, surrounding white space, a leading zero, the empty string. */
  lemma GetBaudRejects(speed: int)
    ensures GetBaud([49, 52, 52, 48, 48], speed) == (1, speed)      // "14400"
    ensures GetBaud([54, 48, 48], speed) == (1, speed)              // "600"
    ensures GetBaud([32, 57, 54, 48, 48], speed) == (1, speed)      // " 9600"
    ensures GetBaud([57, 54, 48, 48, 32], speed) == (1, speed)      // "9600 "
    ensures GetBaud([48, 57, 54, 48, 48], speed) == (1, speed)      // "09600"
    ensures GetBaud([], speed) == (1, speed)
  {
  }
}
