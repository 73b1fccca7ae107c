/** Reading the controller's telemetry replies and turning them into the
    pose and status records the driver publishes.

    Replies are split with `find_first_of(",")`, `substr` and `atoi`. When a
    comma is missing, `find_first_of` returns `npos`, which the driver stores
    in an `int`, where it becomes -1; `FindComma` returns -1 for that case and
    the field extraction below follows the arithmetic the code then does.

    The unit conversions are written with exact reals; the rounding of the
    driver's `double` arithmetic is not modelled. */
module Telemetry {
  import opened Decimal
  import opened Protocol
  import opened Serial
  import opened Schedule
  import opened Wrappers

  // ---------------------------------------------------------------------
  // Field extraction
  // ---------------------------------------------------------------------

  predicate NoComma(s: string) { forall i :: 0 <= i < |s| ==> s[i] != ',' }

  /** `s.find_first_of(",", from)` stored in an `int`: the first comma at or
      after `from`, or -1 when there is none (`FindCommaAt`, `FindCommaNone`). */
  function FindComma(s: string, from: nat): (i: int)
    ensures i == -1 || (from <= i < |s| && s[i] == ',')
    decreases |s| - from
  {
    if from >= |s| then -1 else if s[from] == ',' then from else FindComma(s, from + 1)
  }

  /** `s.substr(pos, count)` for `pos <= s.size()`. A negative `count` is an
      `int` converted to `size_t`, i.e. a huge count: both it and a count
      past the end take the rest of the string. */
  function Substr(s: string, pos: nat, count: int): string
    requires pos <= |s|
  {
    if count < 0 || pos + count > |s| then s[pos..] else s[pos..pos + count]
  }

  /** The search finds the first comma at or after `from`. */
  lemma {:induction false} FindCommaAt(s: string, from: nat, i: nat)
    requires from <= i < |s| && s[i] == ','
    requires forall k :: from <= k < i ==> s[k] != ','
    ensures FindComma(s, from) == i
    decreases i - from
  {
    if from < i {
      FindCommaAt(s, from + 1, i);
    }
  }

  /** With no comma at or after `from`, the search gives -1 (`npos`). */
  lemma {:induction false} FindCommaNone(s: string, from: nat)
    requires forall k :: from <= k < |s| ==> s[k] != ','
    ensures FindComma(s, from) == -1
    decreases |s| - from
  {
    if from < |s| {
      FindCommaNone(s, from + 1);
    }
  }

  /** What follows the first comma of `s`; `None` when `s` has no comma. */
  function AfterComma(s: string): Option<string>
  {
    if s == [] then None else if s[0] == ',' then Some(s[1..]) else AfterComma(s[1..])
  }

  /** `s` up to and including its first comma, or all of `s` when it has none. */
  function UpToComma(s: string): string
  {
    if s == [] then [] else if s[0] == ',' then [','] else [s[0]] + UpToComma(s[1..])
  }

  /** The number of an `M` reply (`ack,<value>`), read as `getStatus` reads it:
      everything after the first comma, or the whole reply when there is none
      (`ChannelValueAsWritten` shows this is the driver's `substr`). */
  function ChannelValue(msg: string): int
  {
    match AfterComma(msg)
    case Some(field) => Atoi(field)
    case None => Atoi(msg)
  }

  /** The two number fields of an `H` or `E` reply (`ack,<left>,<right>`),
      cut the way `getCurrentPose` cuts them: the first runs from after the
      first comma up to and including the second comma, the second is what
      follows the second comma. With one comma only, the second field is the
      whole reply; with none, the first is empty and the second is the whole
      reply (`CounterTextsAsWritten` shows these are the driver's `substr`s). */
  function CounterTexts(msg: string): (string, string)
  {
    match AfterComma(msg)
    case None => ([], msg)
    case Some(rest) =>
      match AfterComma(rest)
      case Some(second) => (UpToComma(rest), second)
      case None => (UpToComma(rest), msg)
  }

  /** The two numbers of an `H` or `E` reply, each field read by `atoi`. */
  function CounterFields(msg: string): (int, int)
  {
    (Atoi(CounterTexts(msg).0), Atoi(CounterTexts(msg).1))
  }

  /** The text after the comma `FindComma` finds from `from` is what
      `AfterComma` gives on the rest of `s`. */
  lemma {:induction false} AfterCommaFinds(s: string, from: nat)
    requires from <= |s|
    ensures FindComma(s, from) == -1 ==> AfterComma(s[from..]) == None
    ensures FindComma(s, from) != -1 ==> AfterComma(s[from..]) == Some(s[FindComma(s, from) + 1..])
    decreases |s| - from
  {
    if from < |s| {
      assert s[from..][1..] == s[from + 1..];
      if s[from] != ',' {
        AfterCommaFinds(s, from + 1);
      }
    }
  }

  /** Likewise for the text up to and including that comma. */
  lemma {:induction false} UpToCommaFinds(s: string, from: nat)
    requires from <= |s|
    ensures FindComma(s, from) == -1 ==> UpToComma(s[from..]) == s[from..]
    ensures FindComma(s, from) != -1 ==> UpToComma(s[from..]) == s[from..FindComma(s, from) + 1]
    decreases |s| - from
  {
    if from < |s| {
      assert s[from..][1..] == s[from + 1..];
      if s[from] != ',' {
        UpToCommaFinds(s, from + 1);
        assert s[from..] == [s[from]] + s[from + 1..];
        if FindComma(s, from) != -1 {
          assert s[from..FindComma(s, from) + 1] == [s[from]] + s[from + 1..FindComma(s, from) + 1];
        }
      } else {
        assert s[from..from + 1] == [','];
      }
    }
  }

  /** What follows the first comma of `s`, found by `FindComma` from the start. */
  lemma FirstCommaCut(s: string)
    ensures AfterComma(s) == (if FindComma(s, 0) == -1 then None else Some(s[FindComma(s, 0) + 1..]))
  {
    AfterCommaFinds(s, 0);
    assert s[0..] == s;
  }

  /** `ChannelValue` is the driver's
      `atoi(msg.substr(ind1 + 1, msg.size() - ind1).c_str())` with
      `ind1 = msg.find_first_of(",")`. */
  lemma ChannelValueAsWritten(msg: string, ind1: int)
    requires ind1 == FindComma(msg, 0)
    ensures ChannelValue(msg) == Atoi(Substr(msg, ind1 + 1, |msg| - ind1))
  {
    FirstCommaCut(msg);
  }

  /** `CounterTexts` is the driver's pair of `msg.substr(ind + 1, ind2 - ind)`
      and `msg.substr(ind2 + 1, msg.size() - ind2)` with
      `ind = msg.find_first_of(",")` and `ind2 = msg.find_first_of(",", ind + 1)`. */
  lemma CounterTextsAsWritten(msg: string, ind: int, ind2: int)
    requires ind == FindComma(msg, 0) && ind2 == FindComma(msg, ind + 1)
    ensures CounterTexts(msg) == (Substr(msg, ind + 1, ind2 - ind), Substr(msg, ind2 + 1, |msg| - ind2))
  {
    FirstCommaCut(msg);
    if ind != -1 {
      AfterCommaFinds(msg, ind + 1);
      UpToCommaFinds(msg, ind + 1);
    }
    CounterTextsCut(msg, ind, ind2);
  }

  /** `CounterTexts` cut at given comma positions `ind` and `ind2` (-1 for none). */
  lemma CounterTextsCut(msg: string, ind: int, ind2: int)
    requires -1 <= ind < |msg| && -1 <= ind2 < |msg|
    requires ind == -1 ==> ind2 == -1
    requires ind2 != -1 ==> ind < ind2
    requires AfterComma(msg) == (if ind == -1 then None else Some(msg[ind + 1..]))
    requires ind != -1 ==> AfterComma(msg[ind + 1..]) == (if ind2 == -1 then None else Some(msg[ind2 + 1..]))
    requires ind != -1 ==> UpToComma(msg[ind + 1..]) == (if ind2 == -1 then msg[ind + 1..] else msg[ind + 1..ind2 + 1])
    ensures CounterTexts(msg) == (Substr(msg, ind + 1, ind2 - ind), Substr(msg, ind2 + 1, |msg| - ind2))
  {
  }

  /** A comma-free `pre` is skipped up to the comma that follows it. */
  lemma {:induction false} AfterCommaOf(pre: string, rest: string)
    requires NoComma(pre)
    ensures AfterComma(pre + "," + rest) == Some(rest)
    ensures UpToComma(pre + "," + rest) == pre + ","
  {
    if pre != [] {
      assert (pre + "," + rest)[1..] == pre[1..] + "," + rest;
      AfterCommaOf(pre[1..], rest);
      assert pre + "," == [pre[0]] + (pre[1..] + ",");
    }
  }

  /** A comma-free string has nothing after a comma and is its own first field. */
  lemma {:induction false} AfterCommaNone(s: string)
    requires NoComma(s)
    ensures AfterComma(s) == None
    ensures UpToComma(s) == s
  {
    if s != [] {
      AfterCommaNone(s[1..]);
      assert s == [s[0]] + s[1..];
    }
  }

  /** A well-formed reply `<ack>,<a>,<b>` (with anything after `b` that does not
      continue the number) reads as `(a, b)`; the comma left at the end of the
      first field is where `atoi` stops. */
  lemma CounterFieldsOfReply(ack: string, a: int, b: int, tail: string)
    requires NoComma(ack) && EndsNumber(tail)
    ensures CounterFields(ack + "," + FormatInt(a) + "," + FormatInt(b) + tail) == (a, b)
  {
    var fa, fb := FormatInt(a), FormatInt(b);
    var msg := ack + "," + fa + "," + fb + tail;
    var rest := fa + "," + (fb + tail);
    assert msg == ack + "," + rest;
    AfterCommaOf(ack, rest);
    FormatIntHasNoComma(a);
    AfterCommaOf(fa, fb + tail);
    AtoiOfFormatInt(a, ",");
    AtoiOfFormatInt(b, tail);
  }

  /** With no comma at all, the first field is empty (0) and the second is the whole reply. */
  lemma CounterFieldsNoComma(msg: string)
    requires NoComma(msg)
    ensures CounterFields(msg) == (0, Atoi(msg))
  {
    AfterCommaNone(msg);
    AtoiWithoutDigits([]);
  }

  /** With one comma, the first field is everything after it and the second
      is the whole reply again. */
  lemma CounterFieldsOneComma(ack: string, rest: string)
    requires NoComma(ack) && NoComma(rest)
    ensures CounterFields(ack + "," + rest) == (Atoi(rest), Atoi(ack + "," + rest))
  {
    AfterCommaOf(ack, rest);
    AfterCommaNone(rest);
  }

  /** A well-formed channel reply `<ack>,<v>` reads as `v`. */
  lemma ChannelValueOfReply(ack: string, v: int, tail: string)
    requires NoComma(ack) && EndsNumber(tail)
    ensures ChannelValue(ack + "," + FormatInt(v) + tail) == v
  {
    AfterCommaOf(ack, FormatInt(v) + tail);
    assert ack + "," + FormatInt(v) + tail == ack + "," + (FormatInt(v) + tail);
    AtoiOfFormatInt(v, tail);
  }

  /** A channel reply without a comma is read whole; an empty one reads as 0. */
  lemma ChannelValueNoComma(msg: string)
    requires NoComma(msg)
    ensures ChannelValue(msg) == Atoi(msg)
    ensures msg == [] ==> ChannelValue(msg) == 0
  {
    AfterCommaNone(msg);
    AtoiWithoutDigits([]);
  }

  // ---------------------------------------------------------------------
  // Pose
  // ---------------------------------------------------------------------

  /** The counts behind the published pose: `getCurrentPose` sets position
      and heading from the `H` counters (`left`, `right`) and velocity and yaw
      rate from the `E` rates (`leftRate`, `rightRate`). Each published pair is
      a one-to-one function of its pair of counts (`PoseMsgOf`,
      `CountsDeterminePoseMsg`), so the record keeps the counts. */
  datatype Pose = Pose(left: int, right: int, leftRate: int, rightRate: int)

  /** A zero-initialised pose message. */
  const ZeroPose := Pose(0, 0, 0, 0)

  /** A wheel base the published heading and yaw rate can divide by. */
  type NonZeroReal = r: real | r != 0.0 witness 1.0

  /** The pose message as published, in metres, radians and per second. */
  datatype PoseMsg = PoseMsg(position: real, heading: real, velocity: real, yawRate: real)

  /** Encoder counts to distance along the path: 0.045 mm per count. */
  function PositionOf(left: int, right: int): real
  {
    0.5 * (0.045 * (left + right) as real) / 1000.0
  }

  function HeadingOf(left: int, right: int, wheelBase: real): real
    requires wheelBase != 0.0
  {
    (1.0 / wheelBase) * ((0.045 * (left - right) as real) / 1000.0)
  }

  /** Encoder count rates to linear speed: 4.5 mm/s per unit. */
  function VelocityOf(left: int, right: int): real
  {
    0.5 * (4.5 * (left + right) as real) / 1000.0
  }

  function YawRateOf(left: int, right: int, wheelBase: real): real
    requires wheelBase != 0.0
  {
    (1.0 / wheelBase) * ((4.5 * (left - right) as real) / 1000.0)
  }

  function PoseMsgOf(p: Pose, wheelBase: real): PoseMsg
    requires wheelBase != 0.0
  {
    PoseMsg(PositionOf(p.left, p.right), HeadingOf(p.left, p.right, wheelBase),
            VelocityOf(p.leftRate, p.rightRate), YawRateOf(p.leftRate, p.rightRate, wheelBase))
  }

  /** The pose after the `H` reply `h`: a non-empty reply sets the two
      counters it carries, an empty one changes nothing. */
  function WithCounts(p: Pose, h: string): (q: Pose)
    ensures q.leftRate == p.leftRate && q.rightRate == p.rightRate
    ensures h == [] ==> q == p
  {
    if |h| > 0 then
      var (l, r) := CounterFields(h);
      p.(left := l, right := r)
    else p
  }

  /** The pose after the `E` reply `e`: a non-empty reply sets the two rates
      it carries, an empty one changes nothing. */
  function WithRates(p: Pose, e: string): (q: Pose)
    ensures q.left == p.left && q.right == p.right
    ensures e == [] ==> q == p
  {
    if |e| > 0 then
      var (lv, rv) := CounterFields(e);
      p.(leftRate := lv, rightRate := rv)
    else p
  }

  /** The pose after `getCurrentPose` received `h` to its `H` query and `e` to
      its `E` query. */
  function PoseAfter(p: Pose, h: string, e: string): Pose
  {
    WithRates(WithCounts(p, h), e)
  }

  /** An empty reply leaves its two published fields as they were; a
      non-empty one replaces them by what its counts give. */
  lemma PoseAfterFrame(p: Pose, h: string, e: string, wheelBase: real)
    requires wheelBase != 0.0
    ensures var m, m' := PoseMsgOf(p, wheelBase), PoseMsgOf(PoseAfter(p, h, e), wheelBase);
            && (h == [] ==> m'.position == m.position && m'.heading == m.heading)
            && (e == [] ==> m'.velocity == m.velocity && m'.yawRate == m.yawRate)
            && (h != [] ==>
                  m'.position == PositionOf(CounterFields(h).0, CounterFields(h).1) &&
                  m'.heading == HeadingOf(CounterFields(h).0, CounterFields(h).1, wheelBase))
            && (e != [] ==>
                  m'.velocity == VelocityOf(CounterFields(e).0, CounterFields(e).1) &&
                  m'.yawRate == YawRateOf(CounterFields(e).0, CounterFields(e).1, wheelBase))
  {
  }

  /** Well-formed replies set the pose to the counts they carry. */
  lemma PoseAfterOfReplies(p: Pose, ack1: string, l: int, r: int, ack2: string, lv: int, rv: int)
    requires NoComma(ack1) && NoComma(ack2)
    ensures PoseAfter(p, ack1 + "," + FormatInt(l) + "," + FormatInt(r),
                         ack2 + "," + FormatInt(lv) + "," + FormatInt(rv)) == Pose(l, r, lv, rv)
  {
    CounterFieldsOfReply(ack1, l, r, []);
    CounterFieldsOfReply(ack2, lv, rv, []);
    assert ack1 + "," + FormatInt(l) + "," + FormatInt(r) + [] == ack1 + "," + FormatInt(l) + "," + FormatInt(r);
    assert ack2 + "," + FormatInt(lv) + "," + FormatInt(rv) + [] == ack2 + "," + FormatInt(lv) + "," + FormatInt(rv);
  }

  /** Position and heading determine the two counters, and velocity and yaw
      rate the two rates, so keeping the counts keeps exactly the published values. */
  lemma CountsDeterminePoseMsg(p: Pose, p': Pose, wheelBase: real)
    requires wheelBase != 0.0
    ensures PoseMsgOf(p, wheelBase) == PoseMsgOf(p', wheelBase) <==> p == p'
  {
    if PoseMsgOf(p, wheelBase) == PoseMsgOf(p', wheelBase) {
      var k := 1.0 / wheelBase;
      assert k != 0.0;
      assert p.left + p.right == p'.left + p'.right;
      assert k * ((0.045 * (p.left - p.right) as real) / 1000.0) == k * ((0.045 * (p'.left - p'.right) as real) / 1000.0);
      assert p.left - p.right == p'.left - p'.right;
      assert p.leftRate + p.rightRate == p'.leftRate + p'.rightRate;
      assert k * ((4.5 * (p.leftRate - p.rightRate) as real) / 1000.0) == k * ((4.5 * (p'.leftRate - p'.rightRate) as real) / 1000.0);
      assert p.leftRate - p.rightRate == p'.leftRate - p'.rightRate;
    }
  }

  /** The differential model is symmetric: swapping the wheels keeps the
      position and speed and negates heading and yaw rate. */
  lemma WheelSwapSymmetry(l: int, r: int, wheelBase: real)
    requires wheelBase != 0.0
    ensures PositionOf(l, r) == PositionOf(r, l) && HeadingOf(l, r, wheelBase) == -HeadingOf(r, l, wheelBase)
    ensures VelocityOf(l, r) == VelocityOf(r, l) && YawRateOf(l, r, wheelBase) == -YawRateOf(r, l, wheelBase)
  {
  }

  /** `h,1000,1000` with a 0.3 m wheel base: 0.045 m along the path, no heading. */
  lemma PoseExample(p: Pose)
    ensures PoseMsgOf(PoseAfter(p, "h,1000,1000", ""), 0.3).position == 0.045
    ensures PoseMsgOf(PoseAfter(p, "h,1000,1000", ""), 0.3).heading == 0.0
  {
    FormatThousand();
    var h := "h,1000,1000";
    assert h == "h" + "," + FormatInt(1000) + "," + FormatInt(1000) + [];
    CounterFieldsOfReply("h", 1000, 1000, []);
    assert CounterFields(h) == (1000, 1000);
    assert PositionOf(1000, 1000) == 0.045;
  }

  lemma FormatThousand()
    ensures FormatInt(1000) == "1000"
  {
    assert NatToDigits(1) == "1";
    assert NatToDigits(10) == "10";
    assert NatToDigits(100) == "100";
    assert NatToDigits(1000) == "1000";
  }

  // ---------------------------------------------------------------------
  // Status
  // ---------------------------------------------------------------------

  datatype Status = Status(
    stamp: Timespec,
    batteryVoltage: real,
    currentConsumption: real,
    ambientTemp: real,
    leftMotorCurrent: int,
    rightMotorCurrent: int,
    batteryTemp: real)

  const ZeroStatus := Status(Timespec(0, 0), 0.0, 0.0, 0.0, 0, 0, 0.0)

  /** The six `M` queries of one status poll, channel 0 to 5 in order. */
  function StatusQueries(): seq<string>
  {
    ["M,0\n", "M,1\n", "M,2\n", "M,3\n", "M,4\n", "M,5\n"]
  }

  /** The six channel values of one status poll. */
  function ChannelsOf(q: seq<string>): seq<int>
  {
    seq(6, k requires 0 <= k => ChannelValue(Reply(q, k)))
  }

  /** The status record built from the six channel values. The temperature
      factor `9/5` is integer division in the driver, so it is 1. */
  function StatusOf(data: seq<int>, stamp: Timespec): Status
    requires |data| == 6
  {
    Status(
      stamp,
      20.0 * data[0] as real / 1000.0,
      8.0 * data[1] as real,
      ((9 / 5) as real) * (0.1 * data[2] as real) + 32.0,
      4 * data[3],
      4 * data[4],
      ((9 / 5) as real) * (0.1 * data[5] as real) + 32.0)
  }

  /** The `i`-th query is the `M` command with argument `i`. */
  lemma StatusQueriesAreCommands(i: nat)
    requires i < 6
    ensures StatusQueries()[i] == EncodeLine('M', [i])
  {
    assert FormatInt(i) == [DigitChar(i)];
    assert EncodeArgs([i]) == "," + [DigitChar(i)] + EncodeArgs([]);
  }

  /** A poll whose replies are `<ack>,<v>` hands back exactly the values `v`,
      in channel order; a channel the controller did not answer (its read
      timed out and gave "") reads as 0. */
  lemma ChannelsOfReplies(q: seq<string>, acks: seq<string>, vs: seq<int>)
    requires |acks| == 6 && |vs| == 6
    requires forall k :: 0 <= k < 6 ==> NoComma(acks[k])
    requires forall k :: 0 <= k < 6 && k < |q| ==> q[k] == acks[k] + "," + FormatInt(vs[k])
    requires forall k :: |q| <= k < 6 ==> vs[k] == 0
    ensures ChannelsOf(q) == vs
  {
    forall k | 0 <= k < 6
      ensures ChannelsOf(q)[k] == vs[k]
    {
      if k < |q| {
        ChannelValueOfReply(acks[k], vs[k], []);
        assert q[k] == acks[k] + "," + FormatInt(vs[k]) + [];
      } else {
        ChannelValueNoComma([]);
      }
    }
  }

  /** What each status field is made of: channel 3 and 4 give the motor
      currents at 4 units per count, channels 2 and 5 the temperatures with a
      factor of 1 on tenths of a degree, and the stamp is the poll's clock. */
  lemma StatusOfChannels(q: seq<string>, stamp: Timespec)
    ensures var st := StatusOf(ChannelsOf(q), stamp);
            && st.stamp == stamp
            && st.leftMotorCurrent == 4 * ChannelValue(Reply(q, 3))
            && st.rightMotorCurrent == 4 * ChannelValue(Reply(q, 4))
            && st.batteryVoltage == ChannelValue(Reply(q, 0)) as real / 50.0
            && st.currentConsumption == 8.0 * ChannelValue(Reply(q, 1)) as real
            && st.ambientTemp == ChannelValue(Reply(q, 2)) as real / 10.0 + 32.0
            && st.batteryTemp == ChannelValue(Reply(q, 5)) as real / 10.0 + 32.0
  {
  }

  /** Replies `m,1000` and `m,50` on channels 0 and 1 give 20 V and 400 mA;
      a temperature reply of `m,100` gives 42, not the 50 a 9/5 factor would. */
  lemma StatusExample(q: seq<string>, stamp: Timespec)
    requires |q| >= 6 && q[0] == "m,1000" && q[1] == "m,50" && q[2] == "m,100"
    ensures StatusOf(ChannelsOf(q), stamp).batteryVoltage == 20.0
    ensures StatusOf(ChannelsOf(q), stamp).currentConsumption == 400.0
    ensures StatusOf(ChannelsOf(q), stamp).ambientTemp == 42.0
  {
    FormatThousand();
    assert FormatInt(50) == "50" by {
      assert NatToDigits(5) == "5";
    }
    assert FormatInt(100) == "100" by {
      assert NatToDigits(1) == "1";
      assert NatToDigits(10) == "10";
    }
    assert q[0] == "m" + "," + FormatInt(1000) + [];
    assert q[1] == "m" + "," + FormatInt(50) + [];
    assert q[2] == "m" + "," + FormatInt(100) + [];
    ChannelValueOfReply("m", 1000, []);
    ChannelValueOfReply("m", 50, []);
    ChannelValueOfReply("m", 100, []);
    var data := ChannelsOf(q);
    assert data[0] == 1000 && data[1] == 50 && data[2] == 100;
  }
}
