# Modbus RTU meter: the measurement engine

The meter (`modbusreadmeter_mod.py`) polls a list of Modbus RTU devices `circles` times. In
every cycle it reads a fixed list of holding registers from each device. A device read that
completes is counted in a dict keyed by the second of the hour in which it finished. A read that
raises a Modbus error is counted in `errors`. After the last cycle the port is closed. With at
least three buckets, the first- and last-inserted buckets are deleted as incomplete seconds and
the statistics are computed from the rest. With fewer, the meter reports that it has too little
data.

This project models the `Measurement` class that does this work:

- `parsing.dfy`, module `ArgParsing`, models the list options. Only the first string argparse
  delivers is used. It is split with `str.split(',')` and every field is converted with `int()`:
  an optional sign, decimal digits, and surrounding ASCII white space.
- `buckets.dfy`, module `Buckets`, models `count_dict`. It is an insertion-ordered dict of
  counts, written as a sequence of keys in first-seen order beside a map. It has the increment
  of `read_device_data` and the `del` of the trimming.
- `polling.dfy`, module `Polling`, models what one device read observes. A `Poll` holds the
  reply of each register, the two `perf_counter` readings and the minute and second of
  `datetime.now()`. The module also defines functions saying what a device read, a cycle and a
  session of cycles add up to: values read, speed, bucket keys, failures and speed sums.
- `measurement.dfy`, module `Meter`, holds the class `Measurement`. Its fields are the parsed
  lists, `count_dict`, `results`, `errors` and a flag for the closed port. Its methods
  `ReadDeviceData`, `ReadAllDevices` and `DoTests` follow the loops of the source. Each is
  proved against the specification functions of `Polling` and `Buckets`.

The main invariant is conservation. Every device read ends either as one completion in a
bucket or as one error. So after `do_tests`, the completions collected plus the errors equal
`circles` × the number of devices.

## Model

| member | source | states |
|---|---|---|
| `ArgParsing.Split` | modbusreadmeter_mod.py:32-33 | `str.split` yields at least one field and no field contains the separator |
| `ArgParsing.SplitCount` | modbusreadmeter_mod.py:32-33 | a string splits into one field more than it has separators |
| `ArgParsing.JoinSplit` | modbusreadmeter_mod.py:32-33 | splitting loses nothing: joining the fields back with the separator gives the original string |
| `ArgParsing.SplitJoin` | modbusreadmeter_mod.py:32-33 | fields free of the separator come back unchanged from a join followed by a split |
| `ArgParsing.TrimStart` | modbusreadmeter_mod.py:32-33 | the leading white space `int()` ignores is dropped: the result is a suffix, everything dropped is white space, and it does not start with white space |
| `ArgParsing.TrimEnd` | modbusreadmeter_mod.py:32-33 | the trailing white space is dropped, with the mirror-image properties |
| `ArgParsing.ParseShowInt` | modbusreadmeter_mod.py:32-33 | `int(str(n)) == n` for every integer, negative ones included |
| `ArgParsing.ConvertAll` | modbusreadmeter_mod.py:32-33 | the comprehension succeeds exactly when every field converts; it then yields one value per field, in field order. Otherwise it fails with the first field that does not convert |
| `ArgParsing.ParseList` | modbusreadmeter_mod.py:32-33 | an empty option list raises (`[0]`, no item), and a successful parse is never empty |
| `ArgParsing.ParseListMeaning` | modbusreadmeter_mod.py:32-33 | an empty option list raises (`[0]`, no item). Otherwise only the first item is parsed: success exactly when all of its comma fields are integer literals, one int per field in order, and the number of ints is the comma count plus one. A failure names the first field that is not an integer literal |
| `ArgParsing.ParseListOfJoined` | modbusreadmeter_mod.py:32-33 | round trip: the comma-joined decimal text of any non-empty int list, followed by any further items, parses back to that list |
| `Meter.ParseArguments` | modbusreadmeter_mod.py:32-33 | registers are parsed before device addresses and the first failure is reported. On success the lists are exactly those `ParseList` yields for the two options, both non-empty, and `circles` is kept as given |
| `Meter.Measurement.constructor` | modbusreadmeter_mod.py:19-45 | the object holds the parsed lists and `circles`, an empty `count_dict`, empty `results`, `errors == 0`, and the port is not yet closed |
| `Buckets.CountDict.Increment` | modbusreadmeter_mod.py:113-116 | the key's count grows by exactly one and every other count is unchanged. A present key keeps the order; an unseen key is appended at the end with count 1 |
| `Buckets.IncrementTotal` | modbusreadmeter_mod.py:113-116 | each increment adds exactly one completion to the dict's total |
| `Buckets.IncrementAllTotal` | modbusreadmeter_mod.py:113-116 | `n` increments add exactly `n` completions |
| `Buckets.IncrementAllCounts` | modbusreadmeter_mod.py:113-116 | after a run of increments, each key's count is its old count plus the number of times the run names it. The keys are the old ones plus the run's |
| `Buckets.IncrementAllKeepsOrder` | modbusreadmeter_mod.py:113-116 | increments never reorder: the new order is the old keys in their old order, followed by the run's unseen keys in the order they were first seen |
| `Buckets.IncrementAllConcat` | modbusreadmeter_mod.py:113-116 | incrementing by `a + b` is incrementing by `a` and then by `b` |
| `Buckets.RemoveKey` | modbusreadmeter_mod.py:75-76 | removing a key from the order keeps exactly the other keys |
| `Buckets.DeleteRemovesKey` | modbusreadmeter_mod.py:75-76 | `del d[k]` removes `k` from the map and from the order, which becomes one shorter. The other keys keep their counts and relative order |
| `Buckets.DeleteTotal` | modbusreadmeter_mod.py:75-76 | deleting a bucket removes exactly its completions from the total |
| `Buckets.TrimmedDropsEnds` | modbusreadmeter_mod.py:73-76 | deleting `keys[0]` and then `keys[-1]` leaves exactly the keys strictly between them, in order, with unchanged counts |
| `Buckets.TrimmedTotal` | modbusreadmeter_mod.py:73-76 | the trimmed total is the old total minus the counts of the first and last buckets |
| `Buckets.TotalAtLeastSize` | modbusreadmeter_mod.py:80 | every bucket holds at least one completion, so the total is at least the number of buckets and `mean(count_dict.values())` is at least 1 |
| `Meter.Reduce` | modbusreadmeter_mod.py:73-90 | statistics are computed exactly when there are at least three buckets. They cover the size − 2 remaining buckets and the completions outside the first and last bucket, and the speed total and error count pass through unchanged |
| `Meter.DeleteEndsIsTrimmed` | modbusreadmeter_mod.py:74-76 | the second `del` never raises `KeyError`: the last key survives the first `del`. The two `del` statements give the trimmed dict, and no key appears that was not there before |
| `Meter.Summarize` | modbusreadmeter_mod.py:73-90 | with at least three buckets, the dict becomes the trimmed dict and the outcome is `Reduce`'s statistics. With fewer, the dict is left alone and the outcome is insufficient data |
| `Polling.ReadValuesStopsAtError` | modbusreadmeter_mod.py:102-107 | `results` holds the value of every register read before the first Modbus error, in register order. It stops at that error and has one value per register exactly when no read fails |
| `Polling.ReadValuesUnique` | modbusreadmeter_mod.py:102-107 | these properties determine `results` completely |
| `Polling.WholeMillis` | modbusreadmeter_mod.py:109 | `int(ns / 10**6)` truncates toward zero, with bounds for both signs |
| `Polling.Speed` | modbusreadmeter_mod.py:105-109 | with a clock that does not run backwards, the speed is a non-negative number of whole milliseconds that lies within one millisecond of the elapsed time |
| `Polling.BucketKey` | modbusreadmeter_mod.py:111 | `minute*60 + second` lies in 0..3599, and the minute and second can be read back from it |
| `Polling.SuccessKeys` | modbusreadmeter_mod.py:95-116 | every bucket key a cycle increments lies in 0..3599 |
| `Polling.SessionKeys` | modbusreadmeter_mod.py:63-116 | every bucket key a session increments lies in 0..3599 |
| `Polling.PollBuckets` | modbusreadmeter_mod.py:104-133 | a device read that reads every register increments exactly the current bucket, counts no error and returns its speed. One that hits a Modbus error leaves the buckets as they were, counts one error and returns 0 |
| `Polling.CycleStep` | modbusreadmeter_mod.py:95-98 | one more device read extends a cycle's keys, failures and speed sum by that read's share |
| `Polling.CycleConservation` | modbusreadmeter_mod.py:95-131 | in a cycle, the successful reads plus the failed ones equal the number of device reads |
| `Polling.SpeedSumNonNegative` | modbusreadmeter_mod.py:98-109 | with a monotonic clock, `speed_sum` is never negative |
| `Polling.SessionStep` | modbusreadmeter_mod.py:63-69 | one more cycle extends a session's keys, failures and speed sum by that cycle's |
| `Polling.SessionCount` | modbusreadmeter_mod.py:63-97 | in a session, the bucket increments plus the failures equal the number of device reads |
| `Polling.UniformPollCount` | modbusreadmeter_mod.py:63-95 | `circles` cycles over `n` devices are `circles * n` device reads |
| `Polling.SessionConservation` | modbusreadmeter_mod.py:63-131 | bucket increments plus errors equal `circles * n`, so `errors <= circles * n` |
| `Meter.Measurement.ReadDeviceData` | modbusreadmeter_mod.py:101-133 | `results` is reset and ends as `ReadValues` of the replies. The speed returned is that of `DeviceSpeed`. The buckets gain the read's key (none on failure) and `errors` grows by the read's failure count (0 or 1); nothing else changes |
| `Meter.Measurement.ReadAllDevices` | modbusreadmeter_mod.py:92-99 | one device read per configured address, in order. The buckets gain the successful reads' keys in order, `errors` grows by the failed reads, and the result is `speed_sum / len(device_addresses)` |
| `Meter.Measurement.DoTests` | modbusreadmeter_mod.py:59-90 | runs `circles` cycles and closes the port once. `errors` grows by the session's failures. Completions plus errors grow by exactly `circles * n`. The buckets are trimmed exactly when there are at least three, and the outcome is `Reduce` of the collected buckets |
| `Meter.RunSession` | modbusreadmeter_mod.py:160-162 | on a fresh object, the completions collected plus the errors equal `circles * n`, `errors <= circles * n`, and the outcome is `Reduce` of the collected buckets |

## Left out

- Serial port handling (`check_serial_port`, lines 49-57) is left out: opening the port, reporting `SerialException` and `exit(1)` are I/O and process exit. `serial.close()` is kept only as the `serialClosed` flag, which `DoTests` sets once after the loop.
- `minimalmodbus.Instrument` and `read_register` are foreign library calls (RTU framing, CRC). A `Poll` gives each register's reply as a value or a Modbus error. Every `ModbusException` subclass is treated alike.
- Exceptions other than `ModbusException` are not modelled. The source does not catch them, so they would end the program.
- `perf_counter` is taken as two integer nanosecond readings. The rounding of Python's floats in `(timestamp - start_time) * 1000` is not modelled, so the speed is exact whole milliseconds of the elapsed nanoseconds.
- `datetime.now()` is read twice by the source (once for the minute, once for the second). A `Poll` carries both readings as given values, so the model does not decide how the two can drift apart across a minute boundary.
- The final statistics are floating-point arithmetic with rounding: `round(1000 / mean(...), 2)`, the per-register division and `gavg_req_speed / circles`. `DoTests` reports their integer ingredients instead (completions, bucket count, the speed total and errors). The speed total is an exact real sum of the per-cycle means.
- All printing, including the verbose diagnostics, is left out as presentation only. The printed outcome is the `Outcome` value.
- The commented-out elapsed-time keying (lines 118-122) is dead code. The `minute*60 + second` keying that runs is modelled.
- `main` and argparse (lines 136-166) are left out as command-line plumbing. `Arguments` holds the three attributes the core uses, as argparse delivers them; the port parameters and `verbose` are not modelled.
- `int()` accepts more than the model does: underscores between digits and non-ASCII digits and white space. The model accepts ASCII literals only.
- `exit()` in the insufficient-data branch is called without an argument, so the process exits with status 0. The model ends `DoTests` with the `InsufficientData` outcome and does not model the process exit.
- `Meter.Measurement.ReadAllDevices` does not state the final `results` (the values read from the last device); nothing reads it afterwards.
- `Meter.Measurement.DoTests` does not state the final `results` either (the values read from the last device of the last cycle); nothing reads it after the loop.
- `Meter.Measurement.DoTests` needs `serial` to be open, as after `check_serial_port`. Called without it, the source's `self.serial.close()` raises on `None`; that case is not modelled.
