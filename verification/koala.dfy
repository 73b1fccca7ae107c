/** The driver object: its command setters, telemetry polls, dual-rate
    scheduler and joystick handler, each changing the driver's fields and the
    serial line in place.

    Clock readings (`clock_gettime`) and the number of status subscribers are
    parameters; the serial line is a `Transport` whose log and reply script
    the methods change. */
module Koala {
  import opened Decimal
  import opened Protocol
  import opened Serial
  import opened Schedule
  import opened Telemetry
  import opened Drive

  /** The two queries of a pose update: counters, then counter rates. */
  function PoseQueries(): seq<string>
  {
    ["H\n", "E\n"]
  }

  /** The literal query lines are the encoding of the argument-less `H` and `E` commands. */
  lemma PoseQueriesAreCommands()
    ensures PoseQueries() == [EncodeLine('H', []), EncodeLine('E', [])]
  {
    assert EncodeArgs([]) == "";
    assert EncodeLine('H', []) == "H\n" by {
      assert ['H'] + "" + "\n" == "H\n";
    }
    assert EncodeLine('E', []) == "E\n" by {
      assert ['E'] + "" + "\n" == "E\n";
    }
  }

  class KoalaBot {
    const port: Transport
    /** WHEEL_BASE, in metres: non-zero, since the published heading and yaw
        rate divide by it (`PublishedPose`). */
    const wheelBase: NonZeroReal
    /** The slow (status) and fast (pose) periods in milliseconds. */
    const slowPeriod: real
    const fastPeriod: real

    var dualDrive: bool
    var speedL: int
    var speedR: int
    var pose: Pose
    var status: Status
    var currentTime: Timespec
    var slowTimer: Timespec
    var fastTimer: Timespec

    /** The object as the driver's constructor leaves it: messages zeroed, the
        mode, timers and speeds not yet set (they are set by `Initialize`). */
    constructor (port: Transport, wheelBase: NonZeroReal, slowPeriod: real, fastPeriod: real)
      ensures this.port == port && this.wheelBase == wheelBase
      ensures this.slowPeriod == slowPeriod && this.fastPeriod == fastPeriod
      ensures pose == ZeroPose && status == ZeroStatus
    {
      this.port := port;
      this.wheelBase := wheelBase;
      this.slowPeriod := slowPeriod;
      this.fastPeriod := fastPeriod;
      pose := ZeroPose;
      status := ZeroStatus;
      dualDrive := *;
      speedL, speedR := *, *;
      currentTime, slowTimer, fastTimer := *, *, *;
    }

    // -------------------------------------------------------------------
    // Commands: one line out, one reply in
    // -------------------------------------------------------------------

    /** Writes `line`, reads the reply and reports whether it differs from `token`. */
    method Exchange(line: string, token: string) returns (mismatch: bool)
      modifies port
      ensures port.sent == old(port.sent) + [line]
      ensures port.replies == Drop(old(port.replies), 1)
      ensures mismatch <==> Reply(old(port.replies), 0) != token
    {
      port.Write(line);
      var ack := port.ReadLine();
      mismatch := AckMismatch(ack, token);
    }

    method ConfigureSpeedController(kp: int, ki: int, kd: int) returns (mismatch: bool)
      modifies port
      ensures port.sent == old(port.sent) + [EncodeLine('A', [kp, ki, kd])]
      ensures port.replies == Drop(old(port.replies), 1)
      ensures mismatch <==> Reply(old(port.replies), 0) != "a"
    {
      mismatch := Exchange(EncodeLine('A', [kp, ki, kd]), "a");
    }

    method ConfigurePositionController(kp: int, ki: int, kd: int) returns (mismatch: bool)
      modifies port
      ensures port.sent == old(port.sent) + [EncodeLine('F', [kp, ki, kd])]
      ensures port.replies == Drop(old(port.replies), 1)
      ensures mismatch <==> Reply(old(port.replies), 0) != "f"
    {
      mismatch := Exchange(EncodeLine('F', [kp, ki, kd]), "f");
    }

    method ConfigureSpeedProfile(leftMaxSpeed: int, leftAccel: int, rightMaxSpeed: int, rightAccel: int)
      returns (mismatch: bool)
      modifies port
      ensures port.sent == old(port.sent) + [EncodeLine('J', [leftMaxSpeed, leftAccel, rightMaxSpeed, rightAccel])]
      ensures port.replies == Drop(old(port.replies), 1)
      ensures mismatch <==> Reply(old(port.replies), 0) != "j"
    {
      mismatch := Exchange(EncodeLine('J', [leftMaxSpeed, leftAccel, rightMaxSpeed, rightAccel]), "j");
    }

    method SetDesiredPosition(leftPos: int, rightPos: int) returns (mismatch: bool)
      modifies port
      ensures port.sent == old(port.sent) + [EncodeLine('C', [leftPos, rightPos])]
      ensures port.replies == Drop(old(port.replies), 1)
      ensures mismatch <==> Reply(old(port.replies), 0) != "c"
    {
      mismatch := Exchange(EncodeLine('C', [leftPos, rightPos]), "c");
    }

    /** Saturates both wheel values to [-127, 127], then sends them. */
    method SetSpeed(leftMotor: int, rightMotor: int) returns (mismatch: bool)
      modifies port
      ensures port.sent == old(port.sent) + [EncodeLine('D', [ClampSpeed(leftMotor), ClampSpeed(rightMotor)])]
      ensures port.replies == Drop(old(port.replies), 1)
      ensures mismatch <==> Reply(old(port.replies), 0) != "d"
    {
      var left, right := leftMotor, rightMotor;
      if left > 127 {
        left := 127;
      } else if left < -127 {
        left := -127;
      }
      if right > 127 {
        right := 127;
      } else if right < -127 {
        right := -127;
      }
      mismatch := Exchange(EncodeLine('D', [left, right]), "d");
    }

    method SetPWM(leftPwm: int, rightPwm: int) returns (mismatch: bool)
      modifies port
      ensures port.sent == old(port.sent) + [EncodeLine('P', [leftPwm, rightPwm])]
      ensures port.replies == Drop(old(port.replies), 1)
      ensures mismatch <==> Reply(old(port.replies), 0) != "p"
    {
      mismatch := Exchange(EncodeLine('P', [leftPwm, rightPwm]), "p");
    }

    method SetPositionCounter(leftPos: int, rightPos: int) returns (mismatch: bool)
      modifies port
      ensures port.sent == old(port.sent) + [EncodeLine('G', [leftPos, rightPos])]
      ensures port.replies == Drop(old(port.replies), 1)
      ensures mismatch <==> Reply(old(port.replies), 0) != "g"
    {
      mismatch := Exchange(EncodeLine('G', [leftPos, rightPos]), "g");
    }

    method ResetPositionCounter()
      modifies port
      ensures port.sent == old(port.sent) + [EncodeLine('G', [0, 0])]
      ensures port.replies == Drop(old(port.replies), 1)
    {
      var ignored := SetPositionCounter(0, 0);
    }

    method Stop()
      modifies port
      ensures port.sent == old(port.sent) + [EncodeLine('D', [0, 0])]
      ensures port.replies == Drop(old(port.replies), 1)
    {
      var ignored := SetSpeed(0, 0);
    }

    /** Sends `H` and consumes the reply without using it; always reports false. */
    method ReadPosition() returns (result: bool)
      modifies port
      ensures port.sent == old(port.sent) + ["H\n"]
      ensures port.replies == Drop(old(port.replies), 1)
      ensures !result
    {
      port.Write("H\n");
      var msg := port.ReadLine();
      result := false;
    }

    /** Sends `E` and consumes the reply without using it. */
    method ReadSpeed()
      modifies port
      ensures port.sent == old(port.sent) + ["E\n"]
      ensures port.replies == Drop(old(port.replies), 1)
    {
      port.Write("E\n");
      var msg := port.ReadLine();
    }

    /** Starts both timers, selects tank mode and zeroes the position counter. */
    method Initialize(slowStart: Timespec, fastStart: Timespec)
      modifies this`slowTimer, this`fastTimer, this`dualDrive, port
      ensures slowTimer == slowStart && fastTimer == fastStart && dualDrive
      ensures port.sent == old(port.sent) + [EncodeLine('G', [0, 0])]
      ensures port.replies == Drop(old(port.replies), 1)
    {
      slowTimer := slowStart;
      fastTimer := fastStart;
      dualDrive := true;
      var ignored := SetPositionCounter(0, 0);
    }

    // -------------------------------------------------------------------
    // Telemetry
    // -------------------------------------------------------------------

    /** Queries the counters (`H`) and their rates (`E`); each non-empty reply
        overwrites its two pose fields, an empty one leaves them alone. */
    method GetCurrentPose()
      modifies this`pose, port
      ensures pose == PoseAfter(old(pose), Reply(old(port.replies), 0), Reply(old(port.replies), 1))
      ensures var h, e := Reply(old(port.replies), 0), Reply(old(port.replies), 1);
              var m, m' := old(PublishedPose()), PublishedPose();
              && (h == [] ==> m'.position == m.position && m'.heading == m.heading)
              && (e == [] ==> m'.velocity == m.velocity && m'.yawRate == m.yawRate)
              && (h != [] ==>
                    m'.position == PositionOf(CounterFields(h).0, CounterFields(h).1) &&
                    m'.heading == HeadingOf(CounterFields(h).0, CounterFields(h).1, wheelBase))
              && (e != [] ==>
                    m'.velocity == VelocityOf(CounterFields(e).0, CounterFields(e).1) &&
                    m'.yawRate == YawRateOf(CounterFields(e).0, CounterFields(e).1, wheelBase))
      ensures port.sent == old(port.sent) + PoseQueries()
      ensures port.replies == Drop(old(port.replies), 2)
    {
      ghost var q, s0 := port.replies, port.sent;
      port.Write("H\n");
      var msg := port.ReadLine();
      pose := WithCounts(pose, msg);
      port.Write("E\n");
      var msg1 := port.ReadLine();
      pose := WithRates(pose, msg1);
      assert port.sent == s0 + ["H\n"] + ["E\n"];
      assert s0 + ["H\n"] + ["E\n"] == s0 + PoseQueries();
      DropDrop(q, 1, 1);
      PoseAfterFrame(old(pose), Reply(q, 0), Reply(q, 1), wheelBase);
    }

    /** The pose message `getCurrentPose` publishes, computed from the counts
        the driver keeps. */
    ghost function PublishedPose(): PoseMsg
      reads this
    {
      PoseMsgOf(pose, wheelBase)
    }

    /** Writes the status query for channel `i`: `M,i`. */
    method SendStatusQuery(i: nat)
      requires i < 6
      modifies port
      ensures port.sent == old(port.sent) + [StatusQueries()[i]]
      ensures port.replies == old(port.replies)
    {
      StatusQueriesAreCommands(i);
      port.Write(EncodeLine('M', [i]));
    }

    /** One pass of the polling loop: sends `M,i`, reads one reply and stores
        the value after its first comma in `data[i]`. */
    method ReadChannel(data: array<int>, i: nat, ghost q: seq<string>)
      requires data.Length == 6 && i < 6
      requires port.replies == Drop(q, i)
      requires forall k :: 0 <= k < i ==> data[k] == ChannelValue(Reply(q, k))
      modifies port, data
      ensures port.sent == old(port.sent) + [StatusQueries()[i]]
      ensures port.replies == Drop(q, i + 1)
      ensures forall k :: 0 <= k <= i ==> data[k] == ChannelValue(Reply(q, k))
    {
      SendStatusQuery(i);
      var msg := port.ReadLine();
      DropDrop(q, i, 0);
      DropDrop(q, i, 1);
      data[i] := ChannelValue(msg);
    }

    /** Reads channels 0 to 5 in order. */
    method PollChannels() returns (data: array<int>)
      modifies port
      ensures fresh(data) && data.Length == 6
      ensures forall k :: 0 <= k < 6 ==> data[k] == ChannelValue(Reply(old(port.replies), k))
      ensures port.sent == old(port.sent) + StatusQueries()
      ensures port.replies == Drop(old(port.replies), 6)
    {
      ghost var q := port.replies;
      ghost var queries := StatusQueries();
      data := new int[6];
      var i := 0;
      while i < 6
        invariant 0 <= i <= 6
        invariant port.sent == old(port.sent) + queries[..i]
        invariant port.replies == Drop(q, i)
        invariant forall k :: 0 <= k < i ==> data[k] == ChannelValue(Reply(q, k))
      {
        ReadChannel(data, i, q);
        assert queries[..i + 1] == queries[..i] + [queries[i]];
        i := i + 1;
      }
    }

    /** With at least one subscriber: polls the six channels, reads the clock
        into `currentTime` and rebuilds the status record. With none: no
        traffic and nothing changes. */
    method GetStatus(subscribers: nat, clock: Timespec)
      modifies this`status, this`currentTime, port
      ensures subscribers == 0 ==>
        status == old(status) && currentTime == old(currentTime) &&
        port.sent == old(port.sent) && port.replies == old(port.replies)
      ensures subscribers > 0 ==>
        status == StatusOf(ChannelsOf(old(port.replies)), clock) && currentTime == clock &&
        port.sent == old(port.sent) + StatusQueries() && port.replies == Drop(old(port.replies), 6)
    {
      if subscribers > 0 {
        ghost var q := port.replies;
        var data := PollChannels();
        currentTime := clock;
        assert data[..] == ChannelsOf(q);
        status := StatusOf(data[..], clock);
      }
    }

    // -------------------------------------------------------------------
    // Scheduler
    // -------------------------------------------------------------------

    /** One pass of the scheduler. `now` is the clock read on entry,
        `statusClock` the one `GetStatus` reads, `slowReset` and `fastReset`
        the ones taken when a timer is restarted. The fast stream is tested
        against `currentTime`, which a status poll has moved to `statusClock`. */
    method Run(now: Timespec, subscribers: nat, statusClock: Timespec, slowReset: Timespec, fastReset: Timespec)
      modifies this`currentTime, this`slowTimer, this`fastTimer, this`pose, this`status, port
      ensures slowTimer == (if Due(now, old(slowTimer), slowPeriod) then slowReset else old(slowTimer))
      ensures currentTime == (if Polled(now, old(slowTimer), subscribers) then statusClock else now)
      ensures fastTimer == (if Due(currentTime, old(fastTimer), fastPeriod) then fastReset else old(fastTimer))
      ensures status == (if Polled(now, old(slowTimer), subscribers)
                         then StatusOf(ChannelsOf(old(port.replies)), statusClock) else old(status))
      ensures var q1 := if Polled(now, old(slowTimer), subscribers) then Drop(old(port.replies), 6) else old(port.replies);
              && pose == (if Due(currentTime, old(fastTimer), fastPeriod)
                          then PoseAfter(old(pose), Reply(q1, 0), Reply(q1, 1)) else old(pose))
              && port.replies == (if Due(currentTime, old(fastTimer), fastPeriod) then Drop(q1, 2) else q1)
      ensures port.sent == old(port.sent)
                           + (if Polled(now, old(slowTimer), subscribers) then StatusQueries() else [])
                           + (if Due(currentTime, old(fastTimer), fastPeriod) then PoseQueries() else [])
    {
      currentTime := now;
      if Due(currentTime, slowTimer, slowPeriod) {
        GetStatus(subscribers, statusClock);
        slowTimer := slowReset;
      }
      if Due(currentTime, fastTimer, fastPeriod) {
        GetCurrentPose();
        fastTimer := fastReset;
      }
    }

    /** Whether a pass that starts at `now` polls the status: the slow stream
        is due and somebody listens. */
    predicate Polled(now: Timespec, slowStart: Timespec, subscribers: nat)
    {
      Due(now, slowStart, slowPeriod) && subscribers > 0
    }

    // -------------------------------------------------------------------
    // Joystick
    // -------------------------------------------------------------------

    /** Flips the mode when the first button is pressed, takes the speed pair
        of the (new) mode, raises each speed to at least -99 and sends it. */
    method JoyCmdCallBack(msg: JoyMsg)
      modifies this`dualDrive, this`speedL, this`speedR, port
      ensures dualDrive == ToggleMode(old(dualDrive), msg)
      ensures (speedL, speedR) == DriveSpeeds(dualDrive, msg)
      ensures port.sent == old(port.sent) + [EncodeLine('D', [ClampSpeed(speedL), ClampSpeed(speedR)])]
      ensures port.replies == Drop(old(port.replies), 1)
    {
      if msg.button0 {
        dualDrive := !dualDrive;
      }
      if dualDrive {
        speedL := msg.tankLeft;
        speedR := msg.tankRight;
      } else {
        speedL := msg.mixedLeft;
        speedR := msg.mixedRight;
      }
      if speedL < -99 {
        speedL := -99;
      }
      if speedR < -99 {
        speedR := -99;
      }
      var ignored := SetSpeed(speedL, speedR);
    }
  }
}
