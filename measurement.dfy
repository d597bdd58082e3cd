/** The `Measurement` class of the meter: it parses its register and device lists, polls every
    device `circles` times, counts completed device reads per second-of-the-hour bucket and
    failed ones in `errors`, and at the end trims the first and last bucket. */
module Meter {
  import opened ArgParsing
  import opened Buckets
  import opened Polling

  /** The argparse attributes `__init__` copies onto the object and the core uses: both lists
      as argparse delivers them (`nargs='*'`) and the cycle count. */
  datatype Arguments = Arguments(registers: seq<string>, deviceAddresses: seq<string>, circles: int)

  /** The session parameters once the lists are parsed. */
  datatype Config = Config(registers: seq<int>, deviceAddresses: seq<int>, circles: int)

  /** The list parsing of `__init__`: the register list first, then the device list; the first
      of them to raise decides the error. A parsed list is never empty. */
  function ParseArguments(args: Arguments): (r: Result<Config>)
    ensures r.Success? <==> ParseList(args.registers).Success? && ParseList(args.deviceAddresses).Success?
    ensures ParseList(args.registers).Failure? ==> r == Failure(ParseList(args.registers).error)
    ensures ParseList(args.registers).Success? && ParseList(args.deviceAddresses).Failure? ==>
              r == Failure(ParseList(args.deviceAddresses).error)
    ensures r.Success? ==> && r.value.registers == ParseList(args.registers).value
                           && r.value.deviceAddresses == ParseList(args.deviceAddresses).value
    ensures r.Success? ==> |r.value.registers| >= 1 && |r.value.deviceAddresses| >= 1
    ensures r.Success? ==> r.value.circles == args.circles
  {
    match ParseList(args.registers)
    case Failure(e) => Failure(e)
    case Success(registers) =>
      match ParseList(args.deviceAddresses)
      case Failure(e) => Failure(e)
      case Success(addresses) => Success(Config(registers, addresses, args.circles))
  }

  /** The number of iterations of `for test in range(circles)`. */
  function Cycles(circles: int): nat {
    if circles < 0 then 0 else circles
  }

  /** How `do_tests` ends. With fewer than three buckets it prints that there is too little data
      and calls `exit()`. Otherwise it reports figures derived from the trimmed buckets: the
      number of completions they hold and their number (whose quotient is
      `mean(count_dict.values())`), the sum of the per-cycle average speeds (`gavg_req_speed`
      before its division by `circles`) and the error count. */
  datatype Outcome =
    | InsufficientData
    | Statistics(completions: nat, buckets: nat, speedTotal: real, errors: nat)

  /** The branch after the loop of `do_tests`, on the buckets the loop collected. */
  function Reduce(full: CountDict, speedTotal: real, errors: nat): (o: Outcome)
    requires full.Valid()
    ensures o.Statistics? <==> |full.keys| >= 3
    ensures o.Statistics? ==> o.buckets == |full.keys| - 2
    ensures o.Statistics? ==>
              o.completions == full.Total() - full.counts[full.keys[0]] - full.counts[full.keys[|full.keys| - 1]]
    ensures o.Statistics? ==> 1 <= o.buckets <= o.completions
    ensures o.Statistics? ==> o.speedTotal == speedTotal && o.errors == errors
  {
    if |full.keys| >= 3 then
      var t := full.Trimmed();
      TrimmedDropsEnds(full);
      TrimmedTotal(full);
      TotalAtLeastSize(t.keys, t.counts);
      Statistics(t.Total(), |t.keys|, speedTotal, errors)
    else
      InsufficientData
  }

  /** With at least three buckets, the statistics are those of the trimmed buckets. */
  lemma ReduceTrimmed(full: CountDict, speedTotal: real, errors: nat)
    requires full.Valid() && |full.keys| >= 3
    ensures Reduce(full, speedTotal, errors)
              == Statistics(full.Trimmed().Total(), |full.Trimmed().keys|, speedTotal, errors)
  {
  }

  /** Adding the per-cycle means `a / n` and `b / n` gives the mean of the summed speeds. */
  lemma SumOfMeans(meanA: real, meanB: real, a: int, b: int, sum: int, n: real)
    requires n > 0.0 && meanA == a as real / n && meanB == b as real / n && sum == a + b
    ensures meanA + meanB == sum as real / n
  {
  }

  /** The two `del` statements of `do_tests` are the trimming, which keeps only keys that
      were there before. */
  lemma DeleteEndsIsTrimmed(d: CountDict)
    requires d.Valid() && |d.keys| >= 3
    ensures d.keys[|d.keys| - 1] in d.Delete(d.keys[0]).counts
    ensures d.Delete(d.keys[0]).Delete(d.keys[|d.keys| - 1]) == d.Trimmed()
    ensures d.Trimmed().Valid()
    ensures forall k :: k in d.Trimmed().counts ==> k in d.counts
  {
    assert d.keys[|d.keys| - 1] != d.keys[0];
    TrimmedDropsEnds(d);
  }

  /** The end of `do_tests`, once the port is closed: with at least three buckets, delete the
      first- and then the last-inserted one and report the statistics of the rest; with fewer,
      report that there is too little data and leave the buckets alone. */
  method Summarize(full: CountDict, speedTotal: real, errors: nat) returns (buckets: CountDict, outcome: Outcome)
    requires full.Valid()
    ensures buckets.Valid()
    ensures forall k :: k in buckets.counts ==> k in full.counts
    ensures |full.keys| >= 3 ==> buckets == full.Trimmed()
    ensures |full.keys| < 3 ==> buckets == full
    ensures outcome == Reduce(full, speedTotal, errors)
  {
    buckets := full;
    if |buckets.keys| >= 3 {
      var keys := buckets.keys;
      DeleteEndsIsTrimmed(full);
      buckets := buckets.Delete(keys[0]);
      buckets := buckets.Delete(keys[|keys| - 1]);
      ReduceTrimmed(full, speedTotal, errors);
      outcome := Statistics(buckets.Total(), |buckets.keys|, speedTotal, errors);
    } else {
      outcome := InsufficientData;
    }
  }

  class Measurement {
    const registers: seq<int>
    const deviceAddresses: seq<int>
    const circles: int
    var countDict: CountDict
    var results: seq<Word>
    var errors: nat
    var serialClosed: bool

    /** Both lists are non-empty (so `speed_sum / len(device_addresses)` is defined), the bucket
        dict is consistent and every bucket key is a second of the hour. */
    ghost predicate Valid()
      reads this
    {
      && |registers| >= 1
      && |deviceAddresses| >= 1
      && countDict.Valid()
      && forall k :: k in countDict.counts ==> 0 <= k < SecondsPerHour
    }

    /** `__init__`: the lists parsed, an empty bucket dict, no results, no errors. */
    constructor (args: Arguments)
      requires ParseArguments(args).Success?
      ensures Valid()
      ensures registers == ParseArguments(args).value.registers
      ensures deviceAddresses == ParseArguments(args).value.deviceAddresses
      ensures circles == args.circles
      ensures countDict == Empty && results == [] && errors == 0 && !serialClosed
    {
      var config := ParseArguments(args).value;
      registers := config.registers;
      deviceAddresses := config.deviceAddresses;
      circles := config.circles;
      countDict := Empty;
      results := [];
      errors := 0;
      serialClosed := false;
    }

    /** `read_device_data`: read every register in order. When all succeed, the bucket of the
        current second gains one completion and the speed is returned; at the first Modbus error
        the error count grows by one, the buckets stay as they were and 0 is returned. Either
        way `results` holds the values read. */
    method ReadDeviceData(poll: Poll) returns (speed: int)
      requires Valid() && |poll.replies| == |registers|
      modifies this
      ensures Valid()
      ensures results == ReadValues(poll.replies)
      ensures speed == DeviceSpeed(poll)
      ensures countDict == old(countDict).IncrementAll(PollKeys(poll))
      ensures errors == old(errors) + PollFailures(poll)
      ensures serialClosed == old(serialClosed)
    {
      results := [];
      var i := 0;
      while i < |registers|
        invariant 0 <= i <= |registers|
        invariant |results| == i
        invariant forall j :: 0 <= j < i ==> poll.replies[j] == Value(results[j])
        invariant countDict == old(countDict) && errors == old(errors)
        invariant serialClosed == old(serialClosed)
      {
        var reply := poll.replies[i];
        if reply.ModbusError? {
          ReadValuesUnique(poll.replies, results);
          PollBuckets(countDict, poll);
          errors := errors + 1;
          return 0;
        }
        results := results + [reply.word];
        i := i + 1;
      }
      ReadValuesUnique(poll.replies, results);
      speed := Speed(poll);
      var currentMoment := BucketKey(poll.minute, poll.second);
      PollBuckets(countDict, poll);
      countDict := countDict.Increment(currentMoment);
    }

    /** `read_all_devices`: one device read per configured address, in order. The buckets gain
        the keys of the successful reads, the errors count the failed ones, and the result is
        the mean of the returned speeds. */
    method ReadAllDevices(cycle: seq<Poll>) returns (avgSpeed: real)
      requires Valid() && |cycle| == |deviceAddresses|
      requires forall i :: 0 <= i < |cycle| ==> |cycle[i].replies| == |registers|
      modifies this
      ensures Valid()
      ensures countDict == old(countDict).IncrementAll(SuccessKeys(cycle))
      ensures errors == old(errors) + Failures(cycle)
      ensures avgSpeed == SpeedSum(cycle) as real / |deviceAddresses| as real
      ensures serialClosed == old(serialClosed)
    {
      ghost var start := countDict;
      var speedSum := 0;
      var i := 0;
      while i < |deviceAddresses|
        invariant 0 <= i <= |deviceAddresses|
        invariant Valid()
        invariant countDict == start.IncrementAll(SuccessKeys(cycle[..i]))
        invariant errors == old(errors) + Failures(cycle[..i])
        invariant speedSum == SpeedSum(cycle[..i])
        invariant serialClosed == old(serialClosed)
      {
        var speed := ReadDeviceData(cycle[i]);
        speedSum := speedSum + speed;
        CycleStep(cycle, i);
        IncrementAllConcat(start, SuccessKeys(cycle[..i]), PollKeys(cycle[i]));
        i := i + 1;
      }
      assert cycle[..i] == cycle;
      avgSpeed := speedSum as real / |deviceAddresses| as real;
    }

    /** `do_tests`: run the cycles, close the port once, then trim the first- and last-inserted
        buckets when there are at least three, or report too little data. */
    method DoTests(session: seq<seq<Poll>>) returns (outcome: Outcome)
      requires Valid() && !serialClosed
      requires |session| == Cycles(circles)
      requires forall c :: 0 <= c < |session| ==> |session[c]| == |deviceAddresses|
      requires forall c, i :: 0 <= c < |session| && 0 <= i < |session[c]| ==> |session[c][i].replies| == |registers|
      modifies this
      ensures Valid() && serialClosed
      ensures errors == old(errors) + SessionFailures(session)
      ensures var full := old(countDict).IncrementAll(SessionKeys(session));
              && full.Total() + errors == old(countDict).Total() + old(errors) + |session| * |deviceAddresses|
              && (|full.keys| >= 3 ==> countDict == full.Trimmed())
              && (|full.keys| < 3 ==> countDict == full)
              && outcome == Reduce(full, SessionSpeedSum(session) as real / |deviceAddresses| as real, errors)
    {
      ghost var start := countDict;
      var n := |deviceAddresses| as real;
      var gavgReqSpeed: real := 0.0;
      var test := 0;
      while test < circles
        invariant 0 <= test <= |session|
        invariant Valid() && !serialClosed
        invariant countDict == start.IncrementAll(SessionKeys(session[..test]))
        invariant errors == old(errors) + SessionFailures(session[..test])
        invariant gavgReqSpeed == SessionSpeedSum(session[..test]) as real / n
      {
        var cycle := session[test];
        var avgReqSpeed := ReadAllDevices(cycle);
        SessionStep(session, test);
        IncrementAllConcat(start, SessionKeys(session[..test]), SuccessKeys(cycle));
        SumOfMeans(gavgReqSpeed, avgReqSpeed, SessionSpeedSum(session[..test]), SpeedSum(cycle),
                   SessionSpeedSum(session[..test + 1]), n);
        gavgReqSpeed := gavgReqSpeed + avgReqSpeed;
        test := test + 1;
      }
      assert session[..test] == session;
      serialClosed := true;
      IncrementAllTotal(start, SessionKeys(session));
      SessionConservation(session, |deviceAddresses|);
      countDict, outcome := Summarize(countDict, gavgReqSpeed, errors);
    }
  }

  /** A whole run on a fresh `Measurement`: construct it from the arguments, then `do_tests`.
      Every device read of every cycle ends either as one completion or as one error. */
  method RunSession(args: Arguments, session: seq<seq<Poll>>) returns (outcome: Outcome, errors: nat)
    requires ParseArguments(args).Success?
    requires |session| == Cycles(args.circles)
    requires forall c :: 0 <= c < |session| ==> |session[c]| == |ParseArguments(args).value.deviceAddresses|
    requires forall c, i :: 0 <= c < |session| && 0 <= i < |session[c]| ==>
               |session[c][i].replies| == |ParseArguments(args).value.registers|
    ensures errors == SessionFailures(session)
    ensures errors <= Cycles(args.circles) * |ParseArguments(args).value.deviceAddresses|
    ensures Empty.IncrementAll(SessionKeys(session)).Total() + errors
              == Cycles(args.circles) * |ParseArguments(args).value.deviceAddresses|
    ensures outcome == Reduce(Empty.IncrementAll(SessionKeys(session)),
                              SessionSpeedSum(session) as real / |ParseArguments(args).value.deviceAddresses| as real,
                              errors)
  {
    var worker := new Measurement(args);
    Empty_Valid();
    outcome := worker.DoTests(session);
    errors := worker.errors;
    SessionConservation(session, |worker.deviceAddresses|);
  }
}
