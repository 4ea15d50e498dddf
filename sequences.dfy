/**
 * The fixed command sequences of the driver, as Steps: the wake-up
 * (_hwPreInit), the uncalled partial wake-up (_hwInitPartial), refresh
 * activation, power-off (_sleep), and the whole record of a full update.
 */
module Sequences {
  import opened Geometry
  import opened Protocol

  /** Temperature-register override followed by the load-temperature trigger. */
  function TemperatureLoad(t: bv8): seq<Step> {
    [Command(0x1A, [t]), Command(0x22, [0x91]), Command(0x20, []), Busy]
  }

  /** RAM x/y window of the whole panel and the RAM cursor at its start. */
  function FullWindowSteps(): seq<Step> {
    [ Command(0x11, [0x01]),
      Command(0x44, [0x00, 0x31]),
      Command(0x45, [0x2B, 0x01, 0x00, 0x00]),
      Command(0x4E, [0x00]),
      Command(0x4F, [0x2B, 0x01]),
      Busy ]
  }

  /** The gate count (HEIGHT - 1, low byte first) that driver output control 0x01 carries. */
  lemma GateCountBytes()
    ensures Byte((HEIGHT - 1) % 256) == 0x2B && Byte((HEIGHT - 1) / 256) == 0x01
  {
    assert (HEIGHT - 1) % 256 == 43 && (HEIGHT - 1) / 256 == 1;
    assert Nibble(2) == 0x2 && Nibble(11) == 0xB && Nibble(0) == 0x0 && Nibble(1) == 0x1;
  }

  /** The wake-up sequence of _hwPreInit for a refresh mode. */
  function PreInitSteps(mode: RefreshMode): (s: seq<Step>)
    ensures |s| == 13 + (if mode == Fast then 4 else if mode == FourGray then 3 else 0)
  {
    [ Pulse(10), Busy, Command(0x12, []), Busy,
      Command(0x01, [0x2B, 0x01, 0x00]) ]
    + (if mode != FourGray then [Command(0x21, [0x40, 0x00])] else [])
    + [Command(0x3C, [0x05])]
    + (if mode == Fast then TemperatureLoad(0x6E)
       else if mode == FourGray then TemperatureLoad(0x5A)
       else [])
    + FullWindowSteps()
  }

  /** _hwInitPartial: reset, border waveform 0x80, display update control without RAM bypass. */
  function InitPartialSteps(): (s: seq<Step>)
    ensures |s| == 4
    ensures forall mode: RefreshMode :: s[..2] == PreInitSteps(mode)[..2]
    ensures Command(0x12, []) !in s && Command(0x01, [0x2B, 0x01, 0x00]) !in s
  {
    [Pulse(10), Busy, Command(0x3C, [0x80]), Command(0x21, [0x00, 0x00])]
  }

  /** The display-update-control byte update sends for a refresh mode. */
  function ActivationByte(mode: RefreshMode): (b: bv8)
    ensures mode == Full <==> b == 0xF7
    ensures mode == Fast <==> b == 0xC7
    ensures mode == Partial <==> b == 0xFF
    ensures mode == FourGray <==> b == 0xCF
  {
    match mode
    case Full => 0xF7
    case Fast => 0xC7
    case Partial => 0xFF
    case FourGray => 0xCF
  }

  /** Refresh activation: update control, master activation, wait for the refresh. */
  function ActivateSteps(b: bv8): seq<Step> {
    [Command(0x22, [b]), Command(0x20, []), Busy]
  }

  /** _sleep: deep-sleep mode 1. */
  function SleepSteps(): seq<Step> {
    [Command(0x10, [0x01])]
  }

  /**
   * The transport record of update(): wake-up, a bare 0x24, then 0x24 with
   * plane 1 and 0x26 with plane 2, each streamed in chunks, the activation
   * and the power-off.
   */
  function UpdateTrace(mode: RefreshMode, plane1: seq<bv8>, plane2: seq<bv8>): (r: seq<Event>)
    ensures |r| >= 2 && r[|r| - 2] == Cmd(0x10) && r[|r| - 1] == Data(0x01)
  {
    var head := Encode(PreInitSteps(mode))
      + [Cmd(0x24)]
      + [Cmd(0x24)] + DataBufs(Chunks(plane1))
      + [Cmd(0x26)] + DataBufs(Chunks(plane2));
    var tail := Encode(ActivateSteps(ActivationByte(mode)) + SleepSteps());
    PowerOffLast(ActivateSteps(ActivationByte(mode)));
    SuffixOf(head, tail);
    head + tail
  }

  /** Any record that ends with _sleep's steps ends with 0x10 0x01. */
  lemma PowerOffLast(before: seq<Step>)
    ensures var t := Encode(before + SleepSteps()); |t| >= 2 && t[|t| - 2] == Cmd(0x10) && t[|t| - 1] == Data(0x01)
  {
    EncodeAppend(before, SleepSteps());
    assert Encode(SleepSteps()) == [Cmd(0x10), Data(0x01)];
  }

  /** update's record, regrouped as update produces it: the wake-up, then the rest. */
  lemma UpdateTraceShape(mode: RefreshMode, plane1: seq<bv8>, plane2: seq<bv8>)
    ensures UpdateTrace(mode, plane1, plane2) ==
      Encode(PreInitSteps(mode)) +
      ([Cmd(0x24)]
       + ([Cmd(0x24)] + DataBufs(Chunks(plane1)))
       + ([Cmd(0x26)] + DataBufs(Chunks(plane2)))
       + (Encode(ActivateSteps(ActivationByte(mode))) + Encode(SleepSteps())))
  {
    var d1 := DataBufs(Chunks(plane1));
    var d2 := DataBufs(Chunks(plane2));
    EncodeAppend(ActivateSteps(ActivationByte(mode)), SleepSteps());
    PrefixRegroup(Encode(PreInitSteps(mode)), [Cmd(0x24)], [Cmd(0x24)], d1, [Cmd(0x26)], d2,
      Encode(ActivateSteps(ActivationByte(mode)) + SleepSteps()));
    PairRegroup([Cmd(0x24)], [Cmd(0x24)], d1, [Cmd(0x26)], d2,
      Encode(ActivateSteps(ActivationByte(mode))) + Encode(SleepSteps()));
  }

  // ---------------------------------------------------------------------
  // What the wake-up sequence does

  /** Every wake-up resets the panel, issues SWRESET and sets gate count and border. */
  lemma PreInitAlwaysResets(mode: RefreshMode)
    ensures PreInitSteps(mode)[..5] ==
      [Pulse(10), Busy, Command(0x12, []), Busy, Command(0x01, [0x2B, 0x01, 0x00])]
    ensures Command(0x3C, [0x05]) in PreInitSteps(mode)
  {
  }

  /** RAM bypass (0x21 0x40 0x00) is set in every mode but 4-gray. */
  lemma PreInitBypass(mode: RefreshMode)
    ensures Command(0x21, [0x40, 0x00]) in PreInitSteps(mode) <==> mode != FourGray
    ensures (exists s :: s in PreInitSteps(mode) && s.Command? && s.code == 0x21) <==> mode != FourGray
  {
    if mode != FourGray {
      assert PreInitSteps(mode)[5] == Command(0x21, [0x40, 0x00]);
    }
  }

  /** The temperature override 0x6E is written in fast mode and only there. */
  lemma PreInitFastTemperature(mode: RefreshMode)
    ensures Command(0x1A, [0x6E]) in PreInitSteps(mode) <==> mode == Fast
  {
    if mode == Fast {
      assert PreInitSteps(mode)[7] == Command(0x1A, [0x6E]);
    }
  }

  /** The temperature override 0x5A is written in 4-gray mode and only there. */
  lemma PreInitGrayTemperature(mode: RefreshMode)
    ensures Command(0x1A, [0x5A]) in PreInitSteps(mode) <==> mode == FourGray
  {
    if mode == FourGray {
      assert PreInitSteps(mode)[6] == Command(0x1A, [0x5A]);
    }
  }

  /** The temperature is loaded (0x22 0x91) exactly in fast and 4-gray mode. */
  lemma PreInitLoadsTemperature(mode: RefreshMode)
    ensures Command(0x22, [0x91]) in PreInitSteps(mode) <==> (mode == Fast || mode == FourGray)
  {
    var s := PreInitSteps(mode);
    if mode == Fast {
      assert s[8] == Command(0x22, [0x91]);
    } else if mode == FourGray {
      assert s[7] == Command(0x22, [0x91]);
    }
  }

  /**
   * Every wake-up ends by addressing the whole panel: x bytes 0..49, y from
   * row 299 down to 0, the cursor on byte 0 of row 299, then a busy wait.
   */
  lemma PreInitEndsWithFullWindow(mode: RefreshMode)
    ensures |PreInitSteps(mode)| >= 6
    ensures PreInitSteps(mode)[|PreInitSteps(mode)| - 6..] == FullWindowSteps()
    ensures 0x31 as int == WIDTH / 8 - 1
    ensures 0x2B as int + 256 * 0x01 == HEIGHT - 1
  {
  }

  // ---------------------------------------------------------------------
  // What a full update delivers

  /**
   * The controller receives plane 1 whole under the second 0x24 and plane 2
   * whole under 0x26, then the mode's activation byte, 0x20 and power-off.
   */
  lemma UpdateDelivers(mode: RefreshMode, plane1: seq<bv8>, plane2: seq<bv8>)
    ensures Steps(UpdateTrace(mode, plane1, plane2)) ==
      PreInitSteps(mode)
      + [Command(0x24, []), Command(0x24, plane1), Command(0x26, plane2)]
      + ActivateSteps(ActivationByte(mode)) + SleepSteps()
  {
    var pre := PreInitSteps(mode);
    var act, off := ActivateSteps(ActivationByte(mode)), SleepSteps();
    var d1 := DataBufs(Chunks(plane1));
    var d2 := DataBufs(Chunks(plane2));
    var bare := [Cmd(0x24)] + [Cmd(0x24)] + d1 + [Cmd(0x26)] + d2 + Encode(act + off);
    TransferDelivers(plane1, plane2, act + off);
    PrefixRegroup(Encode(pre), [Cmd(0x24)], [Cmd(0x24)], d1, [Cmd(0x26)], d2, Encode(act + off));
    DecodeEncode(pre);
    StepsAppend(Encode(pre), bare);
    StepsRegroup(pre, [Command(0x24, []), Command(0x24, plane1), Command(0x26, plane2)], act, off);
  }

  /** The two plane transfers and whatever encoded steps follow them, read back. */
  lemma TransferDelivers(plane1: seq<bv8>, plane2: seq<bv8>, post: seq<Step>)
    ensures var t := [Cmd(0x24)] + [Cmd(0x24)] + DataBufs(Chunks(plane1))
      + [Cmd(0x26)] + DataBufs(Chunks(plane2)) + Encode(post);
      Closed(t) &&
      Steps(t) == [Command(0x24, []), Command(0x24, plane1), Command(0x26, plane2)] + post
  {
    var tail := Encode(post);
    var d1 := DataBufs(Chunks(plane1));
    var d2 := DataBufs(Chunks(plane2));
    EncodeClosed(post);
    DecodeEncode(post);
    var second := [Cmd(0x26)] + d2 + tail;
    StreamedCommand(0x26, plane2, tail);
    var first := [Cmd(0x24)] + d1 + second;
    StreamedCommand(0x24, plane1, second);
    var whole := [Cmd(0x24)] + first;
    BareCommand(0x24, first);
    ConsSteps(Command(0x24, []), Command(0x24, plane1), Command(0x26, plane2), post);
    Regroup([Cmd(0x24)], [Cmd(0x24)], d1, [Cmd(0x26)], d2, tail);
  }

  /** A command byte with no data, read back. */
  lemma BareCommand(c: bv8, rest: seq<Event>)
    requires Closed(rest)
    ensures Steps([Cmd(c)] + rest) == [Command(c, [])] + Steps(rest)
  {
    CommandRun(c, [], rest);
    assert [Cmd(c)] + [] + rest == [Cmd(c)] + rest;
  }

  /** Each plane reaches the transport in chunks of 1..3000 bytes; a whole plane in five of 3000. */
  lemma UpdateChunks(plane: seq<bv8>)
    requires |plane| == BUFFER_SIZE
    ensures WellChunked(Chunks(plane)) && |Chunks(plane)| == 5 && AllFull(Chunks(plane))
  {
    ChunksSound(plane);
    PlaneChunks(plane);
  }

  // ---------------------------------------------------------------------
  // Regrouping for the proofs only: associativity and arithmetic steps
  // that the proofs above call; they state nothing about the driver.

  lemma SuffixOf(a: seq<Event>, b: seq<Event>)
    requires |b| >= 2
    ensures (a + b)[|a + b| - 2] == b[|b| - 2] && (a + b)[|a + b| - 1] == b[|b| - 1]
  {
  }

  lemma ConsSteps(x: Step, y: Step, z: Step, post: seq<Step>)
    ensures [x] + ([y] + ([z] + post)) == [x, y, z] + post
  {
  }

  lemma StepsRegroup(a: seq<Step>, b: seq<Step>, c: seq<Step>, d: seq<Step>)
    ensures a + (b + (c + d)) == a + b + c + d
  {
  }

  lemma PrefixRegroup(p: seq<Event>, a: seq<Event>, b: seq<Event>, c: seq<Event>, d: seq<Event>, e: seq<Event>, f: seq<Event>)
    ensures p + a + b + c + d + e + f == p + (a + b + c + d + e + f)
  {
  }

  lemma Regroup(a: seq<Event>, b: seq<Event>, c: seq<Event>, d: seq<Event>, e: seq<Event>, f: seq<Event>)
    ensures a + b + c + d + e + f == a + (b + c + (d + e + f))
  {
  }

  lemma PairRegroup(a: seq<Event>, b: seq<Event>, c: seq<Event>, d: seq<Event>, e: seq<Event>, f: seq<Event>)
    ensures a + b + c + d + e + f == a + (b + c) + (d + e) + f
  {
  }
}
