/**
 * The oscilloscope reader: command termination, acquisition stop/start
 * with a frozen measurement time, and decoding of a waveform returned as an
 * IEEE 488.2 definite-length arbitrary block (section 8.7.9 of IEEE 488.2:
 * `#`, one digit n, n digits giving the data length, then the data).
 *
 * The scope is configured for two-byte signed samples, least significant
 * byte first, 10000 points.  The VXI-11 transport is not modelled: the bytes
 * it delivers are parameters, and the commands sent are recorded in order.
 */
module ScopeReader {
  import Decimal

  type byte = b: int | 0 <= b < 256

  /** Size of the receive buffer `res`. */
  const BufferSize: nat := 20011

  /** Points per waveform, set by the setup command at construction. */
  const MaxPoints: nat := 10000

  const SetupCommand: string := "WFMP:BYT_N 2;NR_P 10000;ENC BIN;BN_F RI;BYT_O LSB;:HEAD OFF\n"

  /** The scope link: acquisition stopped or not, the time of measurement `tom` (ms), and every command sent. */
  datatype Scope = Scope(stopped: bool, tom: int, sent: seq<string>)

  /**
   * The newline normalisation of `send`: a command is terminated by one
   * newline, added only when missing.  Indexing the last character of an
   * empty `std::string` is undefined, so the command must be non-empty.
   */
  function Terminate(cmd: string): (r: string)
    requires |cmd| > 0
    ensures |r| > 0 && r[|r| - 1] == '\n'
    ensures |cmd| <= |r| <= |cmd| + 1 && r[..|cmd|] == cmd
    ensures cmd[|cmd| - 1] == '\n' ==> r == cmd
  {
    if cmd[|cmd| - 1] != '\n' then cmd + "\n" else cmd
  }

  lemma TerminateIdempotent(cmd: string)
    requires |cmd| > 0
    ensures Terminate(Terminate(cmd)) == Terminate(cmd)
  {
  }

  function Send(s: Scope, cmd: string): (r: Scope)
    requires |cmd| > 0
    ensures r.stopped == s.stopped && r.tom == s.tom
    ensures r.sent == s.sent + [Terminate(cmd)]
  {
    s.(sent := s.sent + [Terminate(cmd)])
  }

  /**
   * The constructor: the link is opened, acquisition counts as running, and
   * the waveform format is configured.  `tom` is left uninitialised by the
   * source; it is first written before it is read, and 0 stands for it here.
   */
  function Open(): (s: Scope)
    ensures !s.stopped && s.sent == [SetupCommand]
  {
    Send(Scope(false, 0, []), SetupCommand)
  }

  /** `stop`: freeze the time of measurement at `now` and stop acquisition. */
  function Stop(s: Scope, now: int): (r: Scope)
    ensures r.stopped && r.tom == now
    ensures r.sent == s.sent + ["ACQ:STATE 0\n"]
  {
    Send(s.(stopped := true, tom := now), "ACQ:STATE 0\n")
  }

  /** `start`: resume acquisition; `tom` follows the clock again at the next read. */
  function Start(s: Scope): (r: Scope)
    ensures !r.stopped && r.tom == s.tom
    ensures r.sent == s.sent + ["ACQ:STATE 1\n"]
  {
    Send(s.(stopped := false), "ACQ:STATE 1\n")
  }

  /** A `char` read from the buffer: signed on the platforms the reader targets. */
  function SignedChar(b: byte): (c: int)
    ensures -128 <= c < 128 && (c - b) % 256 == 0
  {
    if b < 128 then b else b - 256
  }

  /**
   * `(res[k+1] << 8) | (res[k] & 255)` stored in a `short`: the high byte is
   * sign-extended, shifting clears its low eight bits, so the OR adds the
   * unsigned low byte.
   */
  function DecodeSample(lo: byte, hi: byte): (v: int)
    ensures -0x8000 <= v < 0x8000
  {
    SignedChar(hi) * 256 + lo
  }

  predicate IsInt16(v: int) {
    -0x8000 <= v < 0x8000
  }

  /** Two's-complement little-endian bytes of a 16-bit sample. */
  function EncodeSample(v: int): (bs: seq<byte>)
    requires IsInt16(v)
    ensures |bs| == 2
  {
    [v % 256, (v / 256) % 256]
  }

  lemma SampleRoundTrip(v: int)
    requires IsInt16(v)
    ensures DecodeSample(EncodeSample(v)[0], EncodeSample(v)[1]) == v
  {
    var q := v / 256;
    assert -128 <= q < 128;
    assert SignedChar(q % 256) == q;
  }

  lemma SampleBytesRoundTrip(lo: byte, hi: byte)
    ensures EncodeSample(DecodeSample(lo, hi)) == [lo, hi]
  {
    var v := DecodeSample(lo, hi);
    assert v / 256 == SignedChar(hi) && v % 256 == lo;
  }

  /**
   * The data offset computed from the second byte: `'#'`, the digit-count
   * digit and that many length digits are skipped.
   */
  function Head(digitByte: byte): int {
    SignedChar(digitByte) - '0' as int + 2
  }

  /** The 20011-byte buffer after a receive: the reply, then whatever the stack held before. */
  function ReceiveBuffer(reply: seq<byte>, stale: seq<byte>): (buf: seq<byte>)
    requires |reply| <= BufferSize && |stale| == BufferSize
    ensures |buf| == BufferSize && buf[..|reply|] == reply
  {
    reply + stale[|reply|..]
  }

  /** The samples `getWfm` decodes from `buf` when every byte it reads lies in the buffer. */
  function DecodeAll(buf: seq<byte>, head: int, n: nat): (vs: seq<int>)
    requires 0 <= head && head + 2 * n <= |buf|
    ensures |vs| == n
    ensures forall i :: 0 <= i < n ==> IsInt16(vs[i])
  {
    seq(n, i requires 0 <= i < n => DecodeSample(buf[head + 2 * i], buf[head + 2 * i + 1]))
  }

  /** The decode loop of `getWfm`, sample by sample; it computes exactly the samples `DecodeAll` describes. */
  method DecodeLoop(buf: seq<byte>, head: int, n: nat) returns (vs: seq<int>)
    requires 0 <= head && head + 2 * n <= |buf|
    ensures |vs| == n
    ensures forall i :: 0 <= i < n ==> vs[i] == DecodeSample(buf[head + 2 * i], buf[head + 2 * i + 1])
    ensures vs == DecodeAll(buf, head, n)
  {
    vs := [];
    var i := 0;
    while i < n
      invariant 0 <= i <= n
      invariant |vs| == i
      invariant forall j :: 0 <= j < i ==> vs[j] == DecodeSample(buf[head + 2 * j], buf[head + 2 * j + 1])
    {
      var wfmbin := DecodeSample(buf[head + 2 * i], buf[head + 2 * i + 1]);
      vs := vs + [wfmbin];
      i := i + 1;
    }
  }

  /**
   * The outcome of `getWfm`: a rejected channel (returns 0), a decoded
   * waveform with the received byte count, or a read outside the buffer
   * (undefined behaviour in the source).
   */
  datatype Waveform =
    | BadChannel
    | Acquired(count: int, startTime: int, samples: seq<int>)
    | Overrun(startTime: int)

  predicate ValidChannel(ch: char) {
    '1' <= ch <= '4'
  }

  /** The commands `getWfm` sends for channel `ch`, in order. */
  function WfmCommands(ch: char): seq<string> {
    ["DAT:SOU CH" + [ch] + "\n", "WFMP:XIN?\n", "WFMP:XZE?\n", "WFMP:YMU?\n", "CURV?\n"]
  }

  /** Every index the decode loop reads for `n` points from offset `head` lies in the buffer. */
  predicate ReadsInBuffer(head: int, n: int) {
    n <= 0 || (0 <= head && head + 2 * n <= BufferSize)
  }

  /**
   * `getWfm(char ch, ...)` at clock reading `now` (ms).  Outside channels
   * 1..4 it returns 0 and sends nothing.  Otherwise it refreshes `tom`
   * unless acquisition is stopped, reports `tom` as the start time, sends
   * the source, scale and curve queries, and decodes `n` samples from the
   * offset given by the block header.  It returns the received byte count.
   */
  function GetWfm(s: Scope, ch: char, n: int, now: int, reply: seq<byte>, stale: seq<byte>): (r: (Scope, Waveform))
    requires |reply| <= BufferSize && |stale| == BufferSize
    ensures r.1 == BadChannel <==> !ValidChannel(ch)
    ensures !ValidChannel(ch) ==> r.0 == s
    ensures ValidChannel(ch) ==>
      && r.0.stopped == s.stopped
      && r.0.tom == (if s.stopped then s.tom else now)
      && r.0.sent == s.sent + WfmCommands(ch)
    ensures r.1.Acquired? ==> r.1.count == |reply| && r.1.startTime == r.0.tom
    ensures r.1.Overrun? ==> r.1.startTime == r.0.tom
    ensures ValidChannel(ch) ==>
      (r.1.Overrun? <==> !ReadsInBuffer(Head(ReceiveBuffer(reply, stale)[1]), n))
    ensures r.1.Acquired? ==> |r.1.samples| == (if n < 0 then 0 else n)
    ensures r.1.Acquired? ==>
      var buf := ReceiveBuffer(reply, stale);
      var head := Head(buf[1]);
      forall i :: 0 <= i < |r.1.samples| ==>
        0 <= head + 2 * i && head + 2 * i + 1 < BufferSize &&
        r.1.samples[i] == DecodeSample(buf[head + 2 * i], buf[head + 2 * i + 1])
  {
    if ch > '4' || ch < '1' then (s, BadChannel)
    else
      var tom := if !s.stopped then now else s.tom;
      var s1 := Send(s.(tom := tom), "DAT:SOU CH" + [ch]);
      var s2 := Send(Send(Send(Send(s1, "WFMP:XIN?\n"), "WFMP:XZE?\n"), "WFMP:YMU?\n"), "CURV?\n");
      var buf := ReceiveBuffer(reply, stale);
      var head := Head(buf[1]);
      if n <= 0 then (s2, Acquired(|reply|, tom, []))
      else if head < 0 || head + 2 * n > BufferSize then (s2, Overrun(tom))
      else (s2, Acquired(|reply|, tom, DecodeAll(buf, head, n)))
  }

  /** The `int` overload converts `'0' + ch` to an 8-bit `char`, wrapping out-of-range values. */
  function ChannelChar(ch: int): char {
    ((48 + ch) % 256) as char
  }

  /** `getWfm(int ch, ...)`: forwards `(char)('0' + ch)`. */
  function GetWfmByNumber(s: Scope, ch: int, n: int, now: int, reply: seq<byte>, stale: seq<byte>): (r: (Scope, Waveform))
    requires |reply| <= BufferSize && |stale| == BufferSize
    ensures r.1 == BadChannel <==> !(1 <= ch % 256 <= 4)
    ensures -48 <= ch < 208 ==> (r.1 == BadChannel <==> !(1 <= ch <= 4))
  {
    GetWfm(s, ChannelChar(ch), n, now, reply, stale)
  }

  /** The 8-bit wrap lets channel numbers beyond 255 through: 257 reads channel 1. */
  lemma ChannelNumberWraps(s: Scope, n: int, now: int, reply: seq<byte>, stale: seq<byte>)
    requires |reply| <= BufferSize && |stale| == BufferSize
    ensures GetWfmByNumber(s, 257, n, now, reply, stale) == GetWfm(s, '1', n, now, reply, stale)
  {
  }

  // ---------------------------------------------------------------------
  // Bounds of the decode loop

  predicate IsDigitByte(b: byte) {
    '0' as int <= b <= '9' as int
  }

  /**
   * With a header digit (at most nine length digits) and at most the
   * configured 10000 points, every byte the loop reads lies in the buffer.
   */
  lemma DefiniteBlockReadsInBuffer(digitByte: byte, n: int)
    requires IsDigitByte(digitByte) && n <= MaxPoints
    ensures ReadsInBuffer(Head(digitByte), n)
    ensures 2 <= Head(digitByte) <= 11
  {
  }

  /** The bound is tight: one more point with a nine-digit length reads past the buffer. */
  lemma OnePointMoreOverruns()
    ensures !ReadsInBuffer(Head('9' as int), MaxPoints + 1)
  {
  }

  // ---------------------------------------------------------------------
  // Round trip through an IEEE 488.2 definite-length block

  function CharBytes(s: string): (bs: seq<byte>)
    requires forall i :: 0 <= i < |s| ==> s[i] as int < 256
    ensures |bs| == |s| && forall i :: 0 <= i < |s| ==> bs[i] == s[i] as int
  {
    seq(|s|, i requires 0 <= i < |s| => s[i] as int)
  }

  /** The sample data of a block: each sample's two bytes, low byte first. */
  function SampleBytes(vs: seq<int>): (bs: seq<byte>)
    requires forall i :: 0 <= i < |vs| ==> IsInt16(vs[i])
    ensures |bs| == 2 * |vs|
    ensures forall i :: 0 <= i < |vs| ==> bs[2 * i] == EncodeSample(vs[i])[0] && bs[2 * i + 1] == EncodeSample(vs[i])[1]
  {
    seq(2 * |vs|, k requires 0 <= k < 2 * |vs| => EncodeSample(vs[k / 2])[k % 2])
  }

  /** The definite-length block the scope sends for `vs`: `#`, digit count, length digits, data. */
  function EncodeBlock(vs: seq<int>): (bs: seq<byte>)
    requires forall i :: 0 <= i < |vs| ==> IsInt16(vs[i])
    requires |vs| <= MaxPoints
  {
    var len := Decimal.NatToString(2 * |vs|);
    Decimal.NatToStringLength(2 * |vs|, 5);
    ['#' as int, '0' as int + |len|] + CharBytes(len) + SampleBytes(vs)
  }

  /**
   * Decoding inverts encoding: a block carrying up to 10000 samples is
   * decoded back to exactly those samples, and the count is the block size.
   */
  lemma BlockRoundTrip(s: Scope, ch: char, now: int, vs: seq<int>, stale: seq<byte>)
    requires ValidChannel(ch)
    requires forall i :: 0 <= i < |vs| ==> IsInt16(vs[i])
    requires |vs| <= MaxPoints && |stale| == BufferSize
    ensures |EncodeBlock(vs)| <= BufferSize
    ensures GetWfm(s, ch, |vs|, now, EncodeBlock(vs), stale).1 ==
      Acquired(|EncodeBlock(vs)|, if s.stopped then s.tom else now, vs)
  {
    var len := Decimal.NatToString(2 * |vs|);
    Decimal.NatToStringLength(2 * |vs|, 5);
    var block := EncodeBlock(vs);
    var data := SampleBytes(vs);
    assert block == ['#' as int, '0' as int + |len|] + CharBytes(len) + data;
    assert |block| == 2 + |len| + 2 * |vs| <= BufferSize;
    var buf := ReceiveBuffer(block, stale);
    assert buf[1] == block[1] == '0' as int + |len|;
    var head := Head(buf[1]);
    assert head == |len| + 2;
    var r := GetWfm(s, ch, |vs|, now, block, stale);
    if |vs| > 0 {
      assert r.1.Acquired?;
      forall i | 0 <= i < |vs|
        ensures r.1.samples[i] == vs[i]
      {
        assert buf[head + 2 * i] == block[head + 2 * i] == data[2 * i];
        assert buf[head + 2 * i + 1] == block[head + 2 * i + 1] == data[2 * i + 1];
        SampleRoundTrip(vs[i]);
      }
      assert r.1.samples == vs;
    }
  }

  // ---------------------------------------------------------------------
  // Frozen measurement time

  /** While acquisition is stopped, every read reports the time `stop` recorded and keeps it. */
  lemma StoppedReadsAgree(s: Scope, ch: char, n1: int, now1: int, r1: seq<byte>, n2: int, now2: int, r2: seq<byte>, stale: seq<byte>)
    requires s.stopped && ValidChannel(ch)
    requires |r1| <= BufferSize && |r2| <= BufferSize && |stale| == BufferSize
    ensures var (s1, w1) := GetWfm(s, ch, n1, now1, r1, stale);
      var (s2, w2) := GetWfm(s1, ch, n2, now2, r2, stale);
      && (w1.Acquired? || w1.Overrun?) && (w2.Acquired? || w2.Overrun?)
      && w1.startTime == s.tom && w2.startTime == s.tom && s2.stopped
  {
  }

  /** `stop` then a read reports the stop time, whatever the clock says at the read. */
  lemma StopFreezesStartTime(s: Scope, stopAt: int, ch: char, n: int, now: int, reply: seq<byte>, stale: seq<byte>)
    requires ValidChannel(ch) && |reply| <= BufferSize && |stale| == BufferSize
    ensures var w := GetWfm(Stop(s, stopAt), ch, n, now, reply, stale).1;
      (w.Acquired? || w.Overrun?) && w.startTime == stopAt
  {
  }

  /** After `start`, the next read follows the clock again. */
  lemma StartUnfreezes(s: Scope, ch: char, n: int, now: int, reply: seq<byte>, stale: seq<byte>)
    requires ValidChannel(ch) && |reply| <= BufferSize && |stale| == BufferSize
    ensures var w := GetWfm(Start(s), ch, n, now, reply, stale).1;
      (w.Acquired? || w.Overrun?) && w.startTime == now
  {
  }
}
