/** What one device read observes, and what a cycle and a whole session of device reads add up
    to. The Modbus link and the clocks are outside the model: a `Poll` carries what they would
    answer for one device read, and the functions here say what `read_device_data`,
    `read_all_devices` and the loop of `do_tests` make of those answers. */
module Polling {
  import opened Buckets

  /** A holding register's value, as `read_register` returns it. */
  type Word = x: int | 0 <= x < 0x1_0000

  /** The `minute` and `second` fields of a `datetime`. */
  type Minute = x: int | 0 <= x < 60
  type Second = x: int | 0 <= x < 60

  /** The outcome of one `instrument.read_register(register, functioncode=3)`. Every
      `ModbusException` (no answer, bad CRC, exception response, ...) is treated alike. */
  datatype Reply = Value(word: Word) | ModbusError

  /** The environment of one device read: the reply the device would give to each configured
      register in order (replies after a failure are never asked for), the two `perf_counter`
      readings around the register loop in nanoseconds, and the minute and second of the two
      `datetime.now()` calls that form the bucket key. */
  datatype Poll = Poll(replies: seq<Reply>, startNs: int, stopNs: int, minute: Minute, second: Second)

  const SecondsPerHour: int := 3600

  predicate AllRead(replies: seq<Reply>) {
    forall i :: 0 <= i < |replies| ==> replies[i].Value?
  }

  /** `self.results` after a device read: the values of the registers read before the first
      failure, which is all of them when none fails. */
  function ReadValues(replies: seq<Reply>): seq<Word> {
    if replies == [] then []
    else
      match replies[0]
      case ModbusError => []
      case Value(w) => [w] + ReadValues(replies[1..])
  }

  /** `ReadValues` holds the value of every reply before the first error, stops at that error,
      and reads all registers exactly when no reply is an error. */
  lemma {:induction false} ReadValuesStopsAtError(replies: seq<Reply>)
    ensures var vs := ReadValues(replies);
            && |vs| <= |replies|
            && (forall i :: 0 <= i < |vs| ==> replies[i] == Value(vs[i]))
            && (|vs| < |replies| ==> replies[|vs|].ModbusError?)
            && (|vs| == |replies| <==> AllRead(replies))
  {
    if replies != [] && replies[0].Value? {
      ReadValuesStopsAtError(replies[1..]);
    }
  }

  /** The three properties of `ReadValues` pin its result down. */
  lemma ReadValuesUnique(replies: seq<Reply>, ws: seq<Word>)
    requires |ws| <= |replies|
    requires forall i :: 0 <= i < |ws| ==> replies[i] == Value(ws[i])
    requires |ws| < |replies| ==> replies[|ws|].ModbusError?
    ensures ws == ReadValues(replies)
  {
    ReadValuesStopsAtError(replies);
    var vs := ReadValues(replies);
    if |ws| < |vs| {
      assert false;
    } else if |vs| < |ws| {
      assert false;
    }
  }

  /** Python's `int(x)` on the float `ns / 10**6`: whole milliseconds, truncated toward zero.
      Clock readings are kept in nanoseconds, so a millisecond is 1_000_000 of them. */
  function WholeMillis(ns: int): (ms: int)
    ensures ns >= 0 ==> 0 <= ms && ms * 1_000_000 <= ns < ms * 1_000_000 + 1_000_000
    ensures ns < 0 ==> ms <= 0 && ms * 1_000_000 - 1_000_000 < ns <= ms * 1_000_000
  {
    if ns >= 0 then ns / 1_000_000 else -((-ns) / 1_000_000)
  }

  /** `int((timestamp - start_time) * 1000)`: the whole milliseconds of the register loop. As
      `perf_counter` never runs backwards, the speed is never negative. */
  function Speed(p: Poll): (ms: int)
    ensures p.startNs <= p.stopNs ==> 0 <= ms
    ensures p.startNs <= p.stopNs ==> ms * 1_000_000 <= p.stopNs - p.startNs < ms * 1_000_000 + 1_000_000
  {
    WholeMillis(p.stopNs - p.startNs)
  }

  /** `minute*60 + second`: a second within the hour, from which minute and second can be read
      back. */
  function BucketKey(minute: Minute, second: Second): (k: int)
    ensures 0 <= k < SecondsPerHour
    ensures k / 60 == minute && k % 60 == second
  {
    minute * 60 + second
  }

  /** What `read_device_data` returns: the speed when every register was read, 0 otherwise. */
  function DeviceSpeed(p: Poll): int {
    if AllRead(p.replies) then Speed(p) else 0
  }

  // ---------------------------------------------------------------- one cycle

  /** 1 when the device read hit a Modbus error, 0 when every register was read. */
  function PollFailures(p: Poll): nat {
    if AllRead(p.replies) then 0 else 1
  }

  /** The number of device reads in `ps` that hit a Modbus error. */
  function Failures(ps: seq<Poll>): nat {
    if ps == [] then 0
    else Failures(ps[..|ps| - 1]) + PollFailures(ps[|ps| - 1])
  }

  /** The bucket keys the successful device reads of `ps` increment, in order. */
  function SuccessKeys(ps: seq<Poll>): (ks: seq<int>)
    ensures forall i :: 0 <= i < |ks| ==> 0 <= ks[i] < SecondsPerHour
  {
    if ps == [] then [] else SuccessKeys(ps[..|ps| - 1]) + PollKeys(ps[|ps| - 1])
  }

  /** The bucket key a device read increments: none when it failed. */
  function PollKeys(p: Poll): seq<int> {
    if AllRead(p.replies) then [BucketKey(p.minute, p.second)] else []
  }

  /** Every device read of a cycle either increments one bucket or counts one failure. */
  lemma {:induction false} CycleConservation(ps: seq<Poll>)
    ensures |SuccessKeys(ps)| + Failures(ps) == |ps|
  {
    if ps != [] {
      CycleConservation(ps[..|ps| - 1]);
    }
  }

  /** Extending a cycle by one device read extends its summaries by that read's share. */
  lemma CycleStep(ps: seq<Poll>, i: nat)
    requires i < |ps|
    ensures SuccessKeys(ps[..i + 1]) == SuccessKeys(ps[..i]) + PollKeys(ps[i])
    ensures Failures(ps[..i + 1]) == Failures(ps[..i]) + PollFailures(ps[i])
    ensures SpeedSum(ps[..i + 1]) == SpeedSum(ps[..i]) + DeviceSpeed(ps[i])
  {
    assert ps[..i + 1][..i] == ps[..i];
  }

  /** The two outcomes of a device read. When every register was read, the bucket of the
      current second gains one completion, no error is counted and the speed is returned. At a
      Modbus error the buckets stay as they were, one error is counted and 0 is returned. */
  lemma PollBuckets(d: CountDict, p: Poll)
    requires d.Valid()
    ensures AllRead(p.replies) ==> && d.IncrementAll(PollKeys(p)) == d.Increment(BucketKey(p.minute, p.second))
                                   && PollFailures(p) == 0 && DeviceSpeed(p) == Speed(p)
    ensures !AllRead(p.replies) ==> && d.IncrementAll(PollKeys(p)) == d
                                    && PollFailures(p) == 1 && DeviceSpeed(p) == 0
  {
    if AllRead(p.replies) {
      IncrementAllOne(d, BucketKey(p.minute, p.second));
    }
  }

  /** `speed_sum` of `read_all_devices`. */
  function SpeedSum(ps: seq<Poll>): int {
    if ps == [] then 0 else SpeedSum(ps[..|ps| - 1]) + DeviceSpeed(ps[|ps| - 1])
  }

  /** With a monotonic clock every device read contributes a non-negative speed. */
  lemma {:induction false} SpeedSumNonNegative(ps: seq<Poll>)
    requires forall i :: 0 <= i < |ps| ==> ps[i].startNs <= ps[i].stopNs
    ensures SpeedSum(ps) >= 0
  {
    if ps != [] {
      SpeedSumNonNegative(ps[..|ps| - 1]);
    }
  }

  // ---------------------------------------------------------------- a session of cycles

  /** The number of device reads in a session. */
  function PollCount(cs: seq<seq<Poll>>): nat {
    if cs == [] then 0 else PollCount(cs[..|cs| - 1]) + |cs[|cs| - 1]|
  }

  function SessionFailures(cs: seq<seq<Poll>>): nat {
    if cs == [] then 0 else SessionFailures(cs[..|cs| - 1]) + Failures(cs[|cs| - 1])
  }

  /** Every bucket key incremented during the session, in the order of the increments. */
  function SessionKeys(cs: seq<seq<Poll>>): (ks: seq<int>)
    ensures forall i :: 0 <= i < |ks| ==> 0 <= ks[i] < SecondsPerHour
  {
    if cs == [] then [] else SessionKeys(cs[..|cs| - 1]) + SuccessKeys(cs[|cs| - 1])
  }

  /** The sum over all cycles of `speed_sum`. */
  function SessionSpeedSum(cs: seq<seq<Poll>>): int {
    if cs == [] then 0 else SessionSpeedSum(cs[..|cs| - 1]) + SpeedSum(cs[|cs| - 1])
  }

  /** Extending a session by one cycle extends its summaries by that cycle's. */
  lemma SessionStep(cs: seq<seq<Poll>>, c: nat)
    requires c < |cs|
    ensures SessionKeys(cs[..c + 1]) == SessionKeys(cs[..c]) + SuccessKeys(cs[c])
    ensures SessionFailures(cs[..c + 1]) == SessionFailures(cs[..c]) + Failures(cs[c])
    ensures SessionSpeedSum(cs[..c + 1]) == SessionSpeedSum(cs[..c]) + SpeedSum(cs[c])
  {
    assert cs[..c + 1][..c] == cs[..c];
  }

  /** Every device read of a session either increments one bucket or counts one failure. */
  lemma {:induction false} SessionCount(cs: seq<seq<Poll>>)
    ensures |SessionKeys(cs)| + SessionFailures(cs) == PollCount(cs)
  {
    if cs != [] {
      SessionCount(cs[..|cs| - 1]);
      CycleConservation(cs[|cs| - 1]);
    }
  }

  /** `circles` cycles over `n` devices are `circles * n` device reads. */
  lemma {:induction false} UniformPollCount(cs: seq<seq<Poll>>, n: nat)
    requires forall c :: 0 <= c < |cs| ==> |cs[c]| == n
    ensures PollCount(cs) == |cs| * n
  {
    if cs != [] {
      UniformPollCount(cs[..|cs| - 1], n);
    }
  }

  /** Conservation over a session: every device read of every cycle ends either as one
      completion in a bucket or as one error, so the errors never exceed `circles * n`. */
  lemma SessionConservation(cs: seq<seq<Poll>>, n: nat)
    requires forall c :: 0 <= c < |cs| ==> |cs[c]| == n
    ensures |SessionKeys(cs)| + SessionFailures(cs) == |cs| * n
    ensures SessionFailures(cs) <= |cs| * n
  {
    SessionCount(cs);
    UniformPollCount(cs, n);
  }
}
