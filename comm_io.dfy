/**
 * The timeout arithmetic and the byte accounting of the serial-port emulation
 * (CommReadFile / CommWriteFile): COMMTIMEOUTS in milliseconds become termios
 * VMIN/VTIME values and a select() timeout, and a write is retried until
 * every byte has been handed to the device.
 */
module CommIo {
  import opened Bytes
  import opened Wrappers

  const MAXULONG: u32 := 0xFFFF_FFFF

  /** The Win32 last-error values the two calls set. */
  datatype LastError = NotSupported | InvalidParameter | IoDevice | Timeout | Cancelled | BadDevice

  datatype CommTimeouts = CommTimeouts(
    readInterval: u32, readMultiplier: u32, readConstant: u32,
    writeMultiplier: u32, writeConstant: u32)

  /** A millisecond interval as a termios VTIME, in deciseconds held in one byte. */
  function Svtime(ti: u32): (r: byte)
    ensures r == 0 <==> ti == 0
    ensures 100 <= ti <= 25500 ==> (r as int) * 100 <= ti < (r as int) * 100 + 100
    ensures ti < 100 ==> r <= 1
    ensures ti >= 25500 ==> r == 255
  {
    if ti == 0 then 0
    else if ti < 100 then 1
    else if ti > 25500 then 255
    else ti / 100
  }

  /** A longer interval never gives a shorter VTIME. */
  lemma SvtimeMonotone(a: u32, b: u32)
    requires a <= b
    ensures Svtime(a) <= Svtime(b)
  {
    if 100 <= a && b <= 25500 {
      assert (Svtime(b) as int) * 100 + 100 > b >= a >= (Svtime(a) as int) * 100;
    }
  }

  /** A select() timeout. */
  datatype Timeval = Timeval(sec: int, usec: int)

  /** The timeval for a number of milliseconds: zeroed, then filled in when positive. */
  function SplitMs(tmax: int): (t: Timeval)
    ensures tmax <= 0 ==> t == Timeval(0, 0)
    ensures tmax > 0 ==> 0 <= t.usec < 1_000_000 && t.usec % 1000 == 0
    ensures tmax > 0 ==> t.sec * 1000 + t.usec / 1000 == tmax
  {
    if tmax > 0 then Timeval(tmax / 1000, (tmax % 1000) * 1000) else Timeval(0, 0)
  }

  /** The total timeout `N * multiplier + constant` computed, as the source does, in a signed 64-bit LONGLONG. */
  function TmaxAsWritten(n: u32, multiplier: u32, constant: u32): i64
  {
    WrapI64(n * multiplier + constant)
  }

  /** The total timeout it stands for, in milliseconds. */
  function Tmax(n: u32, multiplier: u32, constant: u32): (r: nat)
    ensures r == 0 <==> (n == 0 || multiplier == 0) && constant == 0
  {
    n * multiplier + constant
  }

  /** The two agree whenever the product stays below 2^63. */
  lemma TmaxAgrees(n: u32, multiplier: u32, constant: u32)
    requires Tmax(n, multiplier, constant) < 0x8000_0000_0000_0000
    ensures TmaxAsWritten(n, multiplier, constant) == Tmax(n, multiplier, constant)
  {
  }

  /** VMIN, VTIME and the select() timeout of a read; `wait == None` means wait forever. */
  datatype ReadPlan = ReadPlan(vmin: byte, vtime: byte, wait: Option<Timeval>)

  /** The COMMTIMEOUTS decision table of CommReadFile for a read of `n` bytes. */
  function ReadTimeoutPlan(t: CommTimeouts, n: u32): (r: Result<ReadPlan, LastError>)
    ensures r.Err? <==> t.readInterval == MAXULONG && t.readConstant == MAXULONG
    ensures r.Err? ==> r.error == InvalidParameter
    ensures r.Ok? ==> r.value.vmin <= 1
    ensures r.Ok? ==> (r.value.vmin == 0 <==> t.readInterval == MAXULONG && t.readMultiplier == 0 && t.readConstant == 0)
    ensures r.Ok? ==> (r.value.vtime == 0 <==> t.readInterval == 0 || t.readInterval == MAXULONG)
  {
    if t.readInterval == MAXULONG && t.readConstant == MAXULONG then Err(InvalidParameter)
    else
      var vmin := if t.readInterval == MAXULONG && t.readMultiplier == 0 && t.readConstant == 0 then 0 else 1;
      var vtime := if 0 < t.readInterval < MAXULONG then Svtime(t.readInterval) else 0;
      var wait :=
        if t.readInterval == MAXULONG && t.readMultiplier == MAXULONG then
          Some(SplitMs(t.readConstant))
        else if Tmax(n, t.readMultiplier, t.readConstant) == 0 && t.readInterval < MAXULONG && t.readMultiplier == 0 then
          None
        else
          Some(SplitMs(Tmax(n, t.readMultiplier, t.readConstant)));
      Ok(ReadPlan(vmin, vtime, wait))
  }

  /**
   * A read waits forever exactly when no total timeout is configured and the
   * interval timeout is not MAXULONG.
   */
  lemma ReadWaitsForeverIff(t: CommTimeouts, n: u32)
    requires ReadTimeoutPlan(t, n).Ok?
    ensures ReadTimeoutPlan(t, n).value.wait.None? <==>
      t.readInterval < MAXULONG && t.readMultiplier == 0 && t.readConstant == 0
  {
  }

  /** The rows of the COMMTIMEOUTS table in the CommReadFile documentation. */
  lemma ReadPlanMatchesTable(t: CommTimeouts, n: u32)
    requires n > 0
    // interval MAXULONG, multiplier 0, constant 0: return at once with what is available
    ensures t.readInterval == MAXULONG && t.readMultiplier == 0 && t.readConstant == 0 ==>
      ReadTimeoutPlan(t, n) == Ok(ReadPlan(0, 0, Some(Timeval(0, 0))))
    // interval MAXULONG, multiplier MAXULONG, 0 < constant < MAXULONG: block on the first byte for at most Tc
    ensures t.readInterval == MAXULONG && t.readMultiplier == MAXULONG && 0 < t.readConstant < MAXULONG ==>
      ReadTimeoutPlan(t, n) == Ok(ReadPlan(1, 0, Some(SplitMs(t.readConstant))))
    // 0 < interval < MAXULONG, no total timeout: block on the first byte, then Ti between bytes
    ensures 0 < t.readInterval < MAXULONG && t.readMultiplier == 0 && t.readConstant == 0 ==>
      ReadTimeoutPlan(t, n) == Ok(ReadPlan(1, Svtime(t.readInterval), None))
    // a total timeout: the whole call is bounded by N * multiplier + constant
    ensures t.readInterval < MAXULONG && (t.readMultiplier > 0 || t.readConstant > 0) ==>
      ReadTimeoutPlan(t, n).Ok? &&
      ReadTimeoutPlan(t, n).value.wait == Some(SplitMs(Tmax(n, t.readMultiplier, t.readConstant)))
  {
  }

  /** How CommReadFile begins: argument checks, the zero-length case and the terminal mode. */
  datatype Termios = GetAttrFailed | Termios(canonical: bool)
  datatype ReadStart = Refused(err: LastError) | NothingToRead | Start(plan: ReadPlan)

  function ReadFileStart(overlapped: bool, hasCount: bool, n: u32, term: Termios, t: CommTimeouts): (r: ReadStart)
    ensures r.NothingToRead? <==> !overlapped && hasCount && n == 0
    ensures r.Start? ==> n > 0 && ReadTimeoutPlan(t, n) == Ok(r.plan)
  {
    if overlapped then Refused(NotSupported)
    else if !hasCount then Refused(InvalidParameter)
    else if n == 0 then NothingToRead
    else match term
      case GetAttrFailed => Refused(IoDevice)
      case Termios(canonical) =>
        if canonical then Refused(NotSupported)
        else match ReadTimeoutPlan(t, n)
          case Err(e) => Refused(e)
          case Ok(plan) => Start(plan)
  }

  /** What read(2) reported: a byte count, and errno when the count is negative. */
  datatype Errno = EAGAIN | EBADF | EOTHER

  /** The outcome of a call: the BOOL result, the byte count reported, and the last error set. */
  datatype Outcome = Outcome(ok: bool, count: nat, err: Option<LastError>)

  /** How CommReadFile turns the value returned by read(2) into its own result. */
  function ClassifyRead(nbRead: int, errno: Errno, n: u32): (r: Outcome)
    ensures r.count <= n
    ensures r.ok && r.count > 0 ==> r.count == nbRead
    ensures r.ok <==> 0 < nbRead <= n || ((nbRead < 0 || nbRead > n) && errno == EAGAIN)
    ensures !r.ok <==> r.err.Some?
    ensures nbRead == 0 ==> r.err == Some(Timeout)
  {
    if nbRead < 0 || nbRead > n then
      match errno
        case EAGAIN => Outcome(true, 0, None)
        case EBADF => Outcome(false, 0, Some(BadDevice))
        case EOTHER => Outcome(false, 0, Some(IoDevice))
    else if nbRead == 0 then Outcome(false, 0, Some(Timeout))
    else Outcome(true, nbRead, None)
  }

  /**
   * The select() timeout of a write of `n > 0` bytes as the source computes it:
   * zero (return at once) when the LONGLONG total is not positive and some
   * write timeout is set, and none (wait forever) when neither is set.
   */
  function WriteWaitAsWritten(n: u32, t: CommTimeouts): Option<Timeval>
  {
    var tmax := TmaxAsWritten(n, t.writeMultiplier, t.writeConstant);
    if tmax > 0 then Some(SplitMs(tmax))
    else if t.writeMultiplier == 0 && t.writeConstant == 0 then None
    else Some(Timeval(0, 0))
  }

  /** A 4 GiB write with the largest multiplier overflows the LONGLONG total and gets a zero timeout. */
  lemma WriteHugeTimeoutIsZero()
    ensures WriteWaitAsWritten(MAXULONG, CommTimeouts(0, 0, 0, MAXULONG, 0)) == Some(Timeval(0, 0))
  {
    assert TmaxAsWritten(MAXULONG, MAXULONG, 0) < 0;
  }

  /** The select() timeout of a write with the total computed exactly. */
  function WriteWait(n: u32, t: CommTimeouts): Option<Timeval>
  {
    var tmax := Tmax(n, t.writeMultiplier, t.writeConstant);
    if tmax > 0 then Some(SplitMs(tmax))
    else if t.writeMultiplier == 0 && t.writeConstant == 0 then None
    else Some(Timeval(0, 0))
  }

  /**
   * A write of at least one byte waits forever exactly when both write timeouts
   * are zero, and otherwise for exactly N * multiplier + constant milliseconds;
   * it never gets a zero timeout.
   */
  lemma WriteWaitIff(n: u32, t: CommTimeouts)
    requires n > 0
    ensures WriteWait(n, t).None? <==> t.writeMultiplier == 0 && t.writeConstant == 0
    ensures WriteWait(n, t).Some? ==>
      var w := WriteWait(n, t).value;
      w.sec * 1000 + w.usec / 1000 == Tmax(n, t.writeMultiplier, t.writeConstant) > 0
  {
  }

  /** Below 2^63 milliseconds the source's timeout is the exact one. */
  lemma WriteWaitAgrees(n: u32, t: CommTimeouts)
    requires Tmax(n, t.writeMultiplier, t.writeConstant) < 0x8000_0000_0000_0000
    ensures WriteWaitAsWritten(n, t) == WriteWait(n, t)
  {
    TmaxAgrees(n, t.writeMultiplier, t.writeConstant);
  }

  /** One pass of the write loop as the device answers it. */
  datatype WriteResult = Wrote(k: nat) | WouldBlock | BadFd | OtherError
  datatype Round = SelectFailed | SelectTimedOut | Ready(txAbort: bool, writable: bool, result: WriteResult)

  /** How the write loop ends: every byte written, stopped with an error, or still waiting when the answers ran out. */
  datatype LoopEnd = Drained(written: nat) | Stopped(err: LastError, written: nat) | Waiting(written: nat)

  /** The write loop, from `written` bytes already written, over the device's answers. */
  function WriteLoop(rounds: seq<Round>, n: nat, written: nat): LoopEnd
    decreases |rounds|
  {
    if written >= n then Drained(written)
    else if rounds == [] then Waiting(written)
    else match rounds[0]
      case SelectFailed => Stopped(IoDevice, written)
      case SelectTimedOut => Stopped(Timeout, written)
      case Ready(abort, writable, res) =>
        if abort then Stopped(Cancelled, written)
        else if !writable then WriteLoop(rounds[1..], n, written)
        else match res
          case Wrote(k) => WriteLoop(rounds[1..], n, written + k)
          case WouldBlock => WriteLoop(rounds[1..], n, written)
          case BadFd => Stopped(BadDevice, written)
          case OtherError => Stopped(IoDevice, written)
  }

  /** Every write(2) answer reported no more bytes than were still to be written, as POSIX guarantees. */
  predicate WithinRequest(rounds: seq<Round>, n: nat, written: nat)
    decreases |rounds|
  {
    written >= n || rounds == [] ||
    match rounds[0]
      case Ready(false, true, Wrote(k)) => written + k <= n && WithinRequest(rounds[1..], n, written + k)
      case Ready(false, _, _) => WithinRequest(rounds[1..], n, written)
      case _ => true
  }

  /** The count only grows, and the loop ends normally only once it reaches N. */
  lemma {:induction false} WriteLoopProgress(rounds: seq<Round>, n: nat, written: nat)
    ensures WriteLoop(rounds, n, written).written >= written
    ensures WriteLoop(rounds, n, written).Drained? ==> WriteLoop(rounds, n, written).written >= n
  {
    if written < n && rounds != [] {
      match rounds[0]
      case SelectFailed =>
      case SelectTimedOut =>
      case Ready(abort, writable, res) =>
        if !abort {
          if !writable {
            WriteLoopProgress(rounds[1..], n, written);
          } else {
            match res
            case Wrote(k) => WriteLoopProgress(rounds[1..], n, written + k);
            case WouldBlock => WriteLoopProgress(rounds[1..], n, written);
            case BadFd =>
            case OtherError =>
          }
        }
    }
  }

  /** With a device that never over-reports, the count never passes N and a normal end means exactly N. */
  lemma {:induction false} WriteLoopExact(rounds: seq<Round>, n: nat, written: nat)
    requires written <= n && WithinRequest(rounds, n, written)
    ensures WriteLoop(rounds, n, written).written <= n
    ensures WriteLoop(rounds, n, written).Drained? ==> WriteLoop(rounds, n, written).written == n
  {
    if written < n && rounds != [] {
      match rounds[0]
      case SelectFailed =>
      case SelectTimedOut =>
      case Ready(abort, writable, res) =>
        if !abort {
          if !writable {
            WriteLoopExact(rounds[1..], n, written);
          } else {
            match res
            case Wrote(k) => WriteLoopExact(rounds[1..], n, written + k);
            case WouldBlock => WriteLoopExact(rounds[1..], n, written);
            case BadFd =>
            case OtherError =>
          }
        }
    }
  }

  /** The result of CommWriteFile; `Blocked` is the device still not ready when its answers ran out. */
  datatype WriteStatus = Success | Failure(err: LastError) | Blocked

  /** CommWriteFile: argument checks, then write until every byte is out, a select()/write() error, or an abort. */
  method CommWriteFile(overlapped: bool, hasCount: bool, n: u32, rounds: seq<Round>)
    returns (status: WriteStatus, written: nat)
    ensures overlapped ==> status == Failure(NotSupported) && written == 0
    ensures !overlapped && !hasCount ==> status == Failure(InvalidParameter) && written == 0
    ensures !overlapped && hasCount && n == 0 ==> status == Success && written == 0
    ensures !overlapped && hasCount && n > 0 ==>
      match WriteLoop(rounds, n, 0)
        case Drained(w) => status == Success && written == w
        case Stopped(e, w) => status == Failure(e) && written == w
        case Waiting(w) => status == Blocked && written == w
  {
    written := 0;
    if overlapped {
      return Failure(NotSupported), 0;
    }
    if !hasCount {
      return Failure(InvalidParameter), 0;
    }
    if n == 0 {
      return Success, 0;
    }
    var i := 0;
    while written < n
      invariant 0 <= i <= |rounds|
      invariant WriteLoop(rounds[i..], n, written) == WriteLoop(rounds, n, 0)
      decreases |rounds| - i
    {
      if i == |rounds| {
        return Blocked, written;
      }
      assert rounds[i..][1..] == rounds[i + 1..];
      match rounds[i]
      case SelectFailed => return Failure(IoDevice), written;
      case SelectTimedOut => return Failure(Timeout), written;
      case Ready(abort, writable, res) =>
        if abort {
          return Failure(Cancelled), written;
        }
        if writable {
          match res
          case Wrote(k) => written := written + k;
          case WouldBlock =>
          case BadFd => return Failure(BadDevice), written;
          case OtherError => return Failure(IoDevice), written;
        }
      i := i + 1;
    }
    status := Success;
  }
}
