# Koala robot driver — a verified model of its core

The Koala driver (`src/koala.cpp`) talks to a K-Team Koala base over a serial
line. This project models the part of it that has behaviour of its own:

- the **command codec**: each setter (`A`, `F`, `J`, `C`, `D`, `P`, `G`) writes
  one line `<LETTER>,<a1>,...,<an>\n`, reads one reply and returns
  `ack.compare("<letter>")`, which is `true` when the reply does NOT match;
  `setSpeed` first saturates both wheel values to [-127, 127];
- **reply parsing**: `find_first_of(",")`, `substr` and `atoi` on the `H`
  (position counters), `E` (counter rates) and `M,i` (status channel) replies,
  including what happens when a comma is missing (`npos` stored in an `int`
  is -1);
- the **pose update guard**: an empty reply leaves its two pose fields as they were;
- the **status poll**: `M,0` to `M,5` in order, one reply read after each, and
  nothing at all without subscribers;
- the **dual-rate scheduler** `run` with `diff_ms`, whose sub-second part is
  the nanosecond difference divided (truncating, as C does) by 100000;
- **drive-mode arbitration** in `joyCmdCallBack`: a pressed first button flips
  the tank/mixed flag, both speeds are raised to at least -99 and sent through
  `setSpeed`; and the saturation in `skidCmdCallBack`.

Modules:

| file | module | contents |
|---|---|---|
| `wrappers.dfy` | `Wrappers` | `Option` |
| `decimal.dfy` | `Decimal` | `%d` formatting and `atoi` (ISO C11 section 7.22.1.2) |
| `protocol.dfy` | `Protocol` | command line encoding, its decoder, `std::string::compare`, the ack check |
| `serial.dfy` | `Serial` | the serial line: a `Transport` object with the log of sent lines and the queue of replies still to come |
| `schedule.dfy` | `Schedule` | `timespec`, C's truncating division, `diff_ms` |
| `drive.dfy` | `Drive` | `setSpeed` saturation, the -99 floor, the mode flag, skid saturation |
| `telemetry.dfy` | `Telemetry` | field extraction, the pose and status records |
| `koala.dfy` | `Koala` | the driver object `KoalaBot`: setters, `getCurrentPose`, `getStatus` with its polling loop over `data[6]`, `run`, `joyCmdCallBack` |

The driver object is a class whose methods change its fields and the
transport in place; the polling loop of `getStatus` fills an `array<int>` of
six channels. Each method is stated against specification functions
(`EncodeLine`, `ClampSpeed`, `PoseAfter`, `StatusOf`, `ChannelsOf`, `Due`,
`DriveSpeeds`), and those functions carry the lemmas: the decoder inverts
the encoder, `atoi` reads back `%d`, a well-formed reply parses to its
numbers, the recursive field splitter is the driver's `find_first_of`/`substr`
arithmetic, and the mode flag follows the parity of the button presses.

Clock readings (`clock_gettime`) are method parameters, and so is the number
of status subscribers. The serial line is a scripted queue: `readline` takes
the next reply, or gives `""` when none is left, which is what a timed-out
read returns.

Where the code differs from what a reader would expect, the model follows
the code:

- `diff_ms` divides the nanosecond difference by 100000, so its sub-second
  part counts tenths of a millisecond (`DiffMsSubSecond`).
- The temperature factor `9/5` is integer division and equals 1
  (`StatusOfChannels`, `StatusExample`: a raw 100 gives 42, not 50).
- `getStatus` overwrites `current_time_` with its own clock reading, and `run`
  then tests the fast stream against that reading, not the one taken on
  entry (`Run`).
- The joystick handler only raises speeds to -99; there is no upper bound
  besides `setSpeed`'s 127 (`SentSpeedsInRange`).
- The `H`/`E` first field is cut as `substr(ind + 1, ind2 - ind)`, one
  character too long: it keeps the second comma, where `atoi` stops, so the
  value is still right (`CounterFieldsOfReply`). When commas are missing the
  `-1` that `npos` becomes changes the cuts: with no comma at all the first
  field is empty and the second is the whole reply (`CounterFieldsNoComma`);
  with exactly one comma the first count is `substr(ind + 1, <huge>)`, i.e.
  everything after that comma, and the second is again the whole reply
  (`CounterFieldsOneComma`).

## Model

| member | source | states |
|---|---|---|
| Decimal.NatToDigits | src/koala.cpp:177 | the digits `%d` writes for a non-negative value are non-empty, all decimal digits, and have no leading zero |
| Decimal.DigitsValueOfNatToDigits | src/koala.cpp:177 | reading the digits of `n` gives back `n` |
| Decimal.DigitPrefixIsLongest | src/koala.cpp:244-245 | the digits `atoi` takes are a prefix of the text and are followed by a non-digit or the end |
| Decimal.SkipSpaceDropsSpace | src/koala.cpp:244-245 | the white space `atoi` skips is all white space, and what is left is a suffix not starting with white space |
| Decimal.DigitPrefixOfDigits | src/koala.cpp:244-245 | a run of digits followed by a non-digit is exactly the digit prefix |
| Decimal.AtoiOfDigits | src/koala.cpp:244-245 | `atoi` of digits followed by a non-digit is their value |
| Decimal.AtoiOfNegatedDigits | src/koala.cpp:244-245 | after a minus sign the value is negated |
| Decimal.AtoiOfFormatInt | src/koala.cpp:244-245 | `atoi` reads back any integer `%d` wrote, whatever non-digit text follows |
| Decimal.AtoiWithoutDigits | src/koala.cpp:244-245 | a field with no digits reads as 0 |
| Decimal.FormatInt | src/koala.cpp:177 | `%d`: no contract of its own; `AtoiOfFormatInt` and `Protocol.ParseFormatInt` read it back, `Protocol.FormatIntHasNoComma` keeps it free of the separator |
| Decimal.Atoi | src/koala.cpp:244-245 | `atoi`: no contract of its own; its behaviour is stated by `AtoiOfFormatInt` (it inverts `%d`), `AtoiWithoutDigits` (no digits gives 0), `DigitPrefixIsLongest` and `SkipSpaceDropsSpace` |
| Protocol.EncodeLine | src/koala.cpp:177 | a command line starts with its letter and ends with a newline |
| Protocol.FieldEnd | src/koala.cpp:177 | the first comma of a field list, or its end: no comma before it |
| Protocol.FormatIntHasNoComma | src/koala.cpp:177 | a formatted argument contains no comma |
| Protocol.ParseFormatInt | src/koala.cpp:177 | a formatted argument parses back to the integer |
| Protocol.FieldEndOfField | src/koala.cpp:177 | the field boundary of `field,rest` is the end of `field` |
| Protocol.DecodeOneField | src/koala.cpp:177 | one `,field` decodes to its value in front of the rest |
| Protocol.DecodeEncodeArgs | src/koala.cpp:177 | decoding the encoded argument list gives back every argument, in order |
| Protocol.DecodeEncodeLine | src/koala.cpp:115 | decoding a command line gives back its letter and arguments |
| Protocol.EncodeLineInjective | src/koala.cpp:115 | distinct commands never produce the same line |
| Protocol.SetSpeedExample | src/koala.cpp:177-182 | `setSpeed(50, -50)` writes `D,50,-50\n`; the reply `d` is a match and `d\n` a mismatch |
| Protocol.Compare | src/koala.cpp:119 | `std::string::compare`, normalised to -1, 0, 1: no contract of its own; `CompareZeroIff` and `CompareAntisymmetric` state what the driver relies on |
| Protocol.CompareZeroIff | src/koala.cpp:119 | `compare` is zero exactly when the strings are equal |
| Protocol.CompareAntisymmetric | src/koala.cpp:119 | on signs: `compare(a, b)` is negative exactly when `compare(b, a)` is positive, and zero exactly when it is zero |
| Protocol.AckMismatch | src/koala.cpp:119 | the setter's result is true exactly when the reply differs from the expected letter |
| Serial.Reply | src/koala.cpp:118 | the k-th reply still to come, or empty once the controller is silent: no contract of its own; `ReplyIsHead` and `DropDrop` state it |
| Serial.Drop | src/koala.cpp:118 | the replies left after k reads: no contract of its own; `ReplyIsHead` and `DropDrop` state it |
| Serial.ReplyIsHead | src/koala.cpp:118 | the k-th reply is what a read returns after k reads: the head of what is left, or "" when nothing is; k reads leave `max(|q| - k, 0)` replies |
| Serial.DropDrop | src/koala.cpp:118 | i reads followed by j reads are i + j reads, for what is left and for the next reply |
| Serial.Transport.Write | src/koala.cpp:116 | a write appends exactly that line to the log and consumes no reply |
| Serial.Transport.ReadLine | src/koala.cpp:118 | a read returns the next reply and consumes exactly one |
| Serial.Transport.constructor | src/koala.cpp:14-20 | a fresh line has sent nothing and has its replies queued |
| Schedule.TruncDiv | src/koala.cpp:403 | C division of a by b > 0: the quotient has the dividend's sign and the remainder is smaller than b in magnitude |
| Schedule.DiffMs | src/koala.cpp:401-406 | `diff_ms`: the whole-second part times 1000 plus the nanosecond difference in units of 100000 ns, with the sub-second part rounded toward zero: less than one unit from the exact value, and never further from the whole-second part than it |
| Schedule.Due | src/koala.cpp:55 | a stream is due when `diff_ms` against its timer reaches its period: no contract of its own; `DueAtReset` and the `Koala.KoalaBot.Run` contract use it |
| Schedule.DueAtReset | src/koala.cpp:55-62 | a timer read at the instant it was reset is due exactly when the period is not positive |
| Schedule.TruncDivNegate | src/koala.cpp:403 | negating the dividend negates the quotient |
| Schedule.DiffMsAntisymmetric | src/koala.cpp:401-406 | swapping the two times negates `diff_ms`; a time minus itself is 0 |
| Schedule.DiffMsSubSecond | src/koala.cpp:401-406 | within one second, k steps of 100000 ns count as k |
| Schedule.DiffMsWholeSeconds | src/koala.cpp:401-406 | whole seconds with equal nanoseconds count 1000 each |
| Drive.ClampSpeed | src/koala.cpp:160-176 | the sent wheel value lies in [-127, 127], equals the request when in range and the nearer bound otherwise |
| Drive.ClampSpeedIdempotentMonotone | src/koala.cpp:160-176 | saturating twice is saturating once, and saturation keeps order |
| Drive.FloorSpeed | src/koala.cpp:389-393 | a speed is at least -99 after the floor, unchanged if it already was, -99 otherwise |
| Drive.DriveSpeeds | src/koala.cpp:374-393 | the pair passed on is the floored tank pair in tank mode and the floored mixed pair otherwise |
| Drive.ToggleMode | src/koala.cpp:369-372 | the flag after one message: no contract of its own; `ModeAfterParity` and `TwoPressesRestore` state its effect over any run of messages |
| Drive.ModeAfterParity | src/koala.cpp:369-372 | after any run of messages the mode is flipped exactly when the number of button presses is odd |
| Drive.TwoPressesRestore | src/koala.cpp:369-372 | two messages with the button pressed restore the mode |
| Drive.SentSpeedsInRange | src/koala.cpp:389-397 | the values the handler finally sends lie in [-99, 127] |
| Drive.Saturate | src/koala.cpp:331-346 | a saturated value lies within the limit, is unchanged when already within it, becomes the limit when above it and minus the limit when below |
| Drive.SaturateSkid | src/koala.cpp:330-346 | velocity and yaw rate are each saturated to their own limit: within it, unchanged when already within, the upper bound when above and the lower bound when below |
| Drive.SaturateIdempotent | src/koala.cpp:331-346 | saturating twice is saturating once |
| Telemetry.FindComma | src/koala.cpp:239-240 | `find_first_of(",", from)` as an `int`: -1, or a position at or after `from` holding a comma |
| Telemetry.Substr | src/koala.cpp:242-243 | `substr(pos, count)`, a negative `count` being a huge `size_t`: no contract of its own; `CounterTextsAsWritten` and `ChannelValueAsWritten` use it |
| Telemetry.FindCommaAt | src/koala.cpp:239-240 | the search finds the first comma at or after `from` |
| Telemetry.FindCommaNone | src/koala.cpp:239-240 | with no comma from `from` on, the search gives -1 |
| Telemetry.AfterCommaFinds | src/koala.cpp:239-243 | the recursive splitter's text after a comma is the `substr` after the comma the search finds |
| Telemetry.UpToCommaFinds | src/koala.cpp:242 | the recursive splitter's text up to a comma is the `substr` up to and including the comma the search finds |
| Telemetry.FirstCommaCut | src/koala.cpp:291-292 | what follows the first comma is the text after the position `find_first_of` gives |
| Telemetry.ChannelValue | src/koala.cpp:291-297 | the value of an `M` reply: no contract of its own; `ChannelValueAsWritten`, `ChannelValueOfReply` and `ChannelValueNoComma` state it |
| Telemetry.CounterTexts | src/koala.cpp:239-243 | the two fields of an `H` or `E` reply: no contract of its own; `CounterTextsAsWritten` states it |
| Telemetry.CounterFields | src/koala.cpp:239-245 | the two numbers of an `H` or `E` reply: no contract of its own; `CounterFieldsOfReply`, `CounterFieldsNoComma` and `CounterFieldsOneComma` state it |
| Telemetry.ChannelValueAsWritten | src/koala.cpp:291-297 | a channel value is `atoi(msg.substr(ind1 + 1, msg.size() - ind1))` |
| Telemetry.CounterTextsAsWritten | src/koala.cpp:239-243 | the two counter fields are `msg.substr(ind + 1, ind2 - ind)` and `msg.substr(ind2 + 1, msg.size() - ind2)`, for every reply including those with missing commas |
| Telemetry.CounterTextsCut | src/koala.cpp:242-243 | the counter fields for given comma positions |
| Telemetry.AfterCommaOf | src/koala.cpp:239-243 | in `pre,rest` with a comma-free `pre`, the text after the first comma is `rest` and the text up to it is `pre,` |
| Telemetry.AfterCommaNone | src/koala.cpp:239-243 | a comma-free reply has nothing after a comma and is its own first field |
| Telemetry.CounterFieldsOfReply | src/koala.cpp:239-245 | a reply `x,<a>,<b>` parses to (a, b): the comma kept in the first field stops `atoi` |
| Telemetry.CounterFieldsNoComma | src/koala.cpp:239-245 | with no comma the first counter reads 0 and the second is `atoi` of the whole reply |
| Telemetry.CounterFieldsOneComma | src/koala.cpp:239-245 | with one comma the first counter is what follows it and the second is `atoi` of the whole reply |
| Telemetry.ChannelValueOfReply | src/koala.cpp:291-297 | a channel reply `x,<v>` parses to v |
| Telemetry.ChannelValueNoComma | src/koala.cpp:291-297 | a channel reply without a comma is read whole; an empty one reads as 0 |
| Telemetry.PositionOf | src/koala.cpp:247 | the distance along the path from the two counters: no contract of its own; `WheelSwapSymmetry` (symmetric in the wheels), `CountsDeterminePoseMsg` and `PoseExample` state it |
| Telemetry.HeadingOf | src/koala.cpp:248 | the heading from the two counters over the wheel base: no contract of its own; `WheelSwapSymmetry` (swapping the wheels negates it), `CountsDeterminePoseMsg` and `PoseExample` state it |
| Telemetry.VelocityOf | src/koala.cpp:267 | the linear speed from the two counter rates: no contract of its own; `WheelSwapSymmetry` and `CountsDeterminePoseMsg` state it |
| Telemetry.YawRateOf | src/koala.cpp:268 | the yaw rate from the two counter rates over the wheel base: no contract of its own; `WheelSwapSymmetry` and `CountsDeterminePoseMsg` state it |
| Telemetry.PoseMsgOf | src/koala.cpp:247-268 | the published pose message: no contract of its own; `CountsDeterminePoseMsg` (it is one-to-one in the counts), `PoseAfterFrame` and `PoseExample` state it |
| Telemetry.WithCounts | src/koala.cpp:237-251 | the `H` reply leaves the rates alone, and an empty one leaves the pose alone |
| Telemetry.WithRates | src/koala.cpp:256-270 | the `E` reply leaves the counters alone, and an empty one leaves the pose alone |
| Telemetry.PoseAfter | src/koala.cpp:237-270 | the pose after one `getCurrentPose`: no contract of its own; `PoseAfterFrame` and `PoseAfterOfReplies` state it |
| Telemetry.PoseAfterFrame | src/koala.cpp:237-270 | an empty `H` reply keeps position and heading, an empty `E` reply keeps velocity and yaw rate, a non-empty one sets its pair from its counts |
| Telemetry.PoseAfterOfReplies | src/koala.cpp:234-270 | well-formed `H` and `E` replies set the pose to the four numbers they carry |
| Telemetry.CountsDeterminePoseMsg | src/koala.cpp:247-268 | the published pose values and the counts behind them determine each other |
| Telemetry.WheelSwapSymmetry | src/koala.cpp:247-248 | swapping the wheels keeps position and speed and negates heading and yaw rate |
| Telemetry.PoseExample | src/koala.cpp:239-248 | the reply `h,1000,1000` gives 0.045 m of travel and no heading |
| Telemetry.ChannelsOf | src/koala.cpp:283-299 | the six values of one poll: no contract of its own; `ChannelsOfReplies` states it |
| Telemetry.ChannelsOfReplies | src/koala.cpp:283-299 | replies `<ack>,<v>` on channels 0 to 5 give exactly those six values in order, and a channel with no reply reads 0 |
| Telemetry.StatusOf | src/koala.cpp:301-310 | the status record: no contract of its own; `StatusOfChannels` states each field |
| Telemetry.StatusQueriesAreCommands | src/koala.cpp:286 | the i-th status query is the `M` command with argument i |
| Telemetry.StatusOfChannels | src/koala.cpp:301-310 | the motor currents are 4 times channels 3 and 4, the temperatures use a factor of 1, and the stamp is the poll's clock |
| Telemetry.StatusExample | src/koala.cpp:305-307 | replies 1000, 50 and 100 give 20 V, 400 mA and 42 degrees |
| Koala.PoseQueriesAreCommands | src/koala.cpp:234-253 | the pose queries are the argument-less `H` and `E` commands |
| Koala.KoalaBot.constructor | src/koala.cpp:4-8 | a new driver holds its port, its non-zero wheel base and its periods, with zeroed pose and status |
| Koala.KoalaBot.Exchange | src/koala.cpp:116-119 | one line written, one reply consumed, and true exactly when the reply differs from the token |
| Koala.KoalaBot.ConfigureSpeedController | src/koala.cpp:112-120 | writes `A,kp,ki,kd`, consumes one reply, reports a mismatch with `a` |
| Koala.KoalaBot.ConfigurePositionController | src/koala.cpp:122-131 | writes `F,kp,ki,kd`, consumes one reply, reports a mismatch with `f` |
| Koala.KoalaBot.ConfigureSpeedProfile | src/koala.cpp:133-144 | writes `J` with the four values in order, consumes one reply, reports a mismatch with `j` |
| Koala.KoalaBot.SetDesiredPosition | src/koala.cpp:146-154 | writes `C,left,right`, consumes one reply, reports a mismatch with `c` |
| Koala.KoalaBot.SetSpeed | src/koala.cpp:156-183 | writes `D` with both values saturated to [-127, 127], consumes one reply, reports a mismatch with `d` |
| Koala.KoalaBot.SetPWM | src/koala.cpp:185-195 | writes `P,left,right`, consumes one reply, reports a mismatch with `p` |
| Koala.KoalaBot.SetPositionCounter | src/koala.cpp:196-205 | writes `G,left,right`, consumes one reply, reports a mismatch with `g` |
| Koala.KoalaBot.ResetPositionCounter | src/koala.cpp:207-210 | writes `G,0,0` and consumes one reply |
| Koala.KoalaBot.Stop | src/koala.cpp:71-74 | writes `D,0,0` and consumes one reply |
| Koala.KoalaBot.ReadPosition | src/koala.cpp:212-221 | writes `H`, consumes one reply and returns false |
| Koala.KoalaBot.ReadSpeed | src/koala.cpp:223-229 | writes `E` and consumes one reply |
| Koala.KoalaBot.Initialize | src/koala.cpp:36-43 | starts both timers, selects tank mode and zeroes the position counter with `G,0,0` |
| Koala.KoalaBot.GetCurrentPose | src/koala.cpp:231-274 | writes `H` then `E`, consumes two replies, and the pose is `PoseAfter` of the old pose and those replies; of the published message, an empty reply keeps its two fields and a non-empty one sets them from the counts it carries |
| Koala.KoalaBot.PublishedPose | src/koala.cpp:246-272 | the `pose_msg_` published from the driver's counts and its wheel base: no contract of its own; `GetCurrentPose` states how a pose update changes it |
| Koala.KoalaBot.SendStatusQuery | src/koala.cpp:286-287 | writes `M,i` and consumes nothing |
| Koala.KoalaBot.ReadChannel | src/koala.cpp:283-298 | one pass of the loop: writes `M,i`, consumes one reply and stores its channel value at `data[i]`, keeping the earlier entries |
| Koala.KoalaBot.PollChannels | src/koala.cpp:281-299 | writes `M,0` to `M,5` in order, consumes six replies, and `data[k]` is the channel value of the k-th |
| Koala.KoalaBot.GetStatus | src/koala.cpp:276-316 | without subscribers nothing changes and nothing is sent; otherwise the six queries are sent, six replies consumed, the clock stored and the status rebuilt from the channel values |
| Koala.KoalaBot.Run | src/koala.cpp:50-69 | each stream runs exactly when `diff_ms` against its timer reaches its period, only a stream that ran has its timer reset, the status poll happens only with subscribers, and the fast test uses the clock the poll stored |
| Koala.KoalaBot.Polled | src/koala.cpp:55-57 | a pass polls the status when the slow stream is due and, as at line 279, somebody subscribes: no contract of its own; `Run` states what a poll changes |
| Koala.KoalaBot.JoyCmdCallBack | src/koala.cpp:355-398 | the mode flips exactly when the first button is pressed, the speeds are the floored pair of the new mode, and `setSpeed`'s line with them is sent |

## Left out

- Opening and configuring the serial port, baud rate and stop bits, and the exception path of `initialize` (foreign library I/O); the transport is a log of written lines and a queue of replies.
- ROS advertising, subscribing, publishing and parameter reading (`configureROSComms`, and `getROSParams` with its default port and baud rate), and the console prints; the published messages are the `pose` and `status` fields.
- The clock: every `clock_gettime` reading is a parameter of the method that takes it; `start_time_` and `test_speed_` are set but never read and are not modelled.
- The number of status subscribers is a parameter.
- `SLOW_LOOP_FREQ`, `FAST_LOOP_FREQ`, `WHEEL_BASE`, `MAX_SPEED` and `MAX_YAW_RATE` live in `include/koala.h`, which is not part of this model; the two periods (`(1/FREQ)*1000`, which is 0 if the frequencies are integer constants above 1) and the limits are parameters, and the wheel base is a non-zero real (`NonZeroReal`).
- Floating point: pose and status conversions are exact reals; the rounding of `double` arithmetic is not modelled.
- Telemetry.Pose keeps the four counts behind the published pose rather than the published reals; `CountsDeterminePoseMsg` shows the two carry the same information.
- The joystick axis arithmetic and its `float`-to-`int` conversions (the tank and mixed speed pairs) are inputs of `JoyMsg`, computed before the model.
- The skid-steer wheel speeds computed from the raw message and printed; only the saturation is modelled, and its results are unused in the driver.
- Koala.KoalaBot.constructor: the mode, speeds and timers the driver's constructor leaves uninitialised are left unconstrained.
- `diff_ms` returns an `int`; its 32-bit narrowing is not modelled.
- Decimal.Atoi: values out of the range of `int` are undefined behaviour in C; the model gives the exact value.
- `char msg[10]` holds at most 9 characters and the terminating NUL, so every setter line longer than 9 characters overflows it, whatever its letter: an `A`, `F` or `J` line with multi-digit gains, and a `C`, `D`, `P` or `G` line with wide arguments, among them the `D,-99,-99\n`, `D,100,100\n` and `D,127,127\n` lines the joystick handler sends. The model encodes every line in full.
- `msg.copy(&local, msg.size(), 0)` in the status loop writes past a single `char`; it has no effect on the model.
- The empty stubs `getBatteryStatus`, `readProximitySensors`, `readLightSensors` and `read_ADC`, and the prints of `readPosition` and `readSpeed`.
- The latched joystick members `LX_` to `DPY_` and `BA_` are not modelled; only the first button and the resulting speed pairs enter `JoyMsg`.
- `int` overflow in `left_pos + right_pos`, `left_vel + right_vel` and `4*data[3]`, `4*data[4]`: the model computes with exact integers.
- `npos` is modelled as the -1 it becomes when stored in an `int`, as on the usual 64-bit targets.
