/**
 * The SSD1683 command protocol as the driver drives it over the transport.
 * The transport (EpdSpi) is replaced by the record of its calls: every
 * IO.init, IO.reset, IO.cmd, IO.data(byte), IO.data(buffer, n) and busy wait
 * is one Event.  A controller reads that record as Steps: a command byte
 * together with the data bytes that follow it.
 */
module Protocol {
  import opened Geometry

  /** One call into the transport. */
  datatype Event =
    | Setup(mhz: int, debug: bool)   // IO.init
    | Reset(ms: int)                 // IO.reset
    | Cmd(code: bv8)                 // IO.cmd
    | Data(value: bv8)               // IO.data(byte)
    | DataBuf(bytes: seq<bv8>)       // IO.data(xbuf, n)
    | WaitBusy                       // _waitBusy

  /** One transaction as the controller sees it. */
  datatype Step =
    | Start(mhz: int, debug: bool)
    | Pulse(ms: int)
    | Command(code: bv8, args: seq<bv8>)
    | Busy

  predicate IsData(e: Event) {
    e.Data? || e.DataBuf?
  }

  function EventBytes(e: Event): seq<bv8> {
    match e
    case Data(b) => [b]
    case DataBuf(bs) => bs
    case _ => []
  }

  /** The data bytes of a run of events, concatenated. */
  function Payload(t: seq<Event>): seq<bv8>
    decreases |t|
  {
    if t == [] then [] else EventBytes(t[0]) + Payload(t[1..])
  }

  /** Length of the run of data events at the front of a record. */
  function DataRun(t: seq<Event>): (n: nat)
    ensures n <= |t|
    ensures forall i :: 0 <= i < n ==> IsData(t[i])
    ensures n < |t| ==> !IsData(t[n])
    decreases |t|
  {
    if t != [] && IsData(t[0]) then 1 + DataRun(t[1..]) else 0
  }

  /**
   * The controller's reading of a record: each command byte takes the data
   * that follows it up to the next non-data event.  Data with no command
   * before it is ignored.
   */
  function Steps(t: seq<Event>): seq<Step>
    decreases |t|
  {
    if t == [] then []
    else match t[0]
      case Cmd(c) =>
        var n := DataRun(t[1..]);
        [Command(c, Payload(t[1..1 + n]))] + Steps(t[1 + n..])
      case Setup(m, d) => [Start(m, d)] + Steps(t[1..])
      case Reset(ms) => [Pulse(ms)] + Steps(t[1..])
      case WaitBusy => [Busy] + Steps(t[1..])
      case _ => Steps(t[1..])
  }

  /** A data byte per argument. */
  function Datas(args: seq<bv8>): (t: seq<Event>)
    ensures |t| == |args|
    ensures forall i :: 0 <= i < |args| ==> t[i] == Data(args[i])
  {
    seq(|args|, i requires 0 <= i < |args| => Data(args[i]))
  }

  /** The transport calls that issue one step: a command byte and one call per data byte. */
  function StepEvents(s: Step): seq<Event> {
    match s
    case Start(m, d) => [Setup(m, d)]
    case Pulse(ms) => [Reset(ms)]
    case Command(c, args) => [Cmd(c)] + Datas(args)
    case Busy => [WaitBusy]
  }

  function Encode(ss: seq<Step>): seq<Event>
    decreases |ss|
  {
    if ss == [] then [] else StepEvents(ss[0]) + Encode(ss[1..])
  }

  /** One DataBuf event per chunk: the calls IO.data(xbuf, n) of a streamed transfer. */
  function DataBufs(chunks: seq<seq<bv8>>): (t: seq<Event>)
    ensures |t| == |chunks|
    ensures forall i :: 0 <= i < |chunks| ==> t[i] == DataBuf(chunks[i])
  {
    seq(|chunks|, i requires 0 <= i < |chunks| => DataBuf(chunks[i]))
  }

  function Flatten(chunks: seq<seq<bv8>>): seq<bv8>
    decreases |chunks|
  {
    if chunks == [] then [] else chunks[0] + Flatten(chunks[1..])
  }

  /** Split a byte sequence into the chunks of at most SPI_CHUNK bytes a streamed transfer sends. */
  function Chunks(s: seq<bv8>): (r: seq<seq<bv8>>)
    ensures |r| == (|s| + SPI_CHUNK - 1) / SPI_CHUNK
    decreases |s|
  {
    if s == [] then []
    else if |s| <= SPI_CHUNK then [s]
    else [s[..SPI_CHUNK]] + Chunks(s[SPI_CHUNK..])
  }

  /** Chunks of 1..SPI_CHUNK bytes, all of them full except perhaps the last. */
  predicate WellChunked(chunks: seq<seq<bv8>>) {
    (forall i :: 0 <= i < |chunks| ==> 1 <= |chunks[i]| <= SPI_CHUNK) &&
    (forall i :: 0 <= i < |chunks| - 1 ==> |chunks[i]| == SPI_CHUNK)
  }

  predicate AllFull(chunks: seq<seq<bv8>>) {
    forall i :: 0 <= i < |chunks| ==> |chunks[i]| == SPI_CHUNK
  }

  // ---------------------------------------------------------------------
  // Chunking

  lemma {:induction false} FlattenAppend(a: seq<seq<bv8>>, b: seq<seq<bv8>>)
    ensures Flatten(a + b) == Flatten(a) + Flatten(b)
    decreases |a|
  {
    if a == [] {
      assert a + b == b;
    } else {
      assert (a + b)[1..] == a[1..] + b;
      FlattenAppend(a[1..], b);
    }
  }

  /** Chunking loses and reorders nothing, and every chunk is 1..SPI_CHUNK bytes. */
  lemma {:induction false} ChunksSound(s: seq<bv8>)
    ensures Flatten(Chunks(s)) == s
    ensures WellChunked(Chunks(s))
    ensures |Chunks(s)| == (|s| + SPI_CHUNK - 1) / SPI_CHUNK
    decreases |s|
  {
    if s == [] {
    } else if |s| <= SPI_CHUNK {
      assert Chunks(s) == [s];
      assert Flatten([s]) == s + Flatten([]);
    } else {
      ChunksSound(s[SPI_CHUNK..]);
      var rest := Chunks(s[SPI_CHUNK..]);
      assert Chunks(s) == [s[..SPI_CHUNK]] + rest;
      assert ([s[..SPI_CHUNK]] + rest)[1..] == rest;
      assert s[..SPI_CHUNK] + s[SPI_CHUNK..] == s;
    }
  }

  /** A whole plane goes out as five full chunks. */
  lemma PlaneChunks(s: seq<bv8>)
    requires |s| == BUFFER_SIZE
    ensures |Chunks(s)| == 5 && AllFull(Chunks(s)) && Flatten(Chunks(s)) == s
  {
    ChunksSound(s);
    var cs := Chunks(s);
    if |cs[4]| < SPI_CHUNK {
      FlattenLength(cs);
      assert false;
    }
  }

  lemma {:induction false} FlattenLength(cs: seq<seq<bv8>>)
    requires WellChunked(cs) && |cs| > 0
    ensures |Flatten(cs)| == SPI_CHUNK * (|cs| - 1) + |cs[|cs| - 1]|
    decreases |cs|
  {
    if |cs| > 1 {
      FlattenLength(cs[1..]);
    } else {
      assert Flatten(cs) == cs[0] + Flatten([]);
    }
  }

  /** Well-formed chunks are exactly the chunks of their concatenation. */
  lemma {:induction false} ChunksOfFlatten(cs: seq<seq<bv8>>)
    requires WellChunked(cs)
    ensures Chunks(Flatten(cs)) == cs
    decreases |cs|
  {
    if cs == [] {
    } else if |cs| == 1 {
      assert cs[1..] == [];
      assert Flatten(cs) == cs[0];
      assert cs == [cs[0]];
    } else {
      var rest := cs[1..];
      ChunksOfFlatten(rest);
      FlattenLength(rest);
      var f := Flatten(cs);
      assert f == cs[0] + Flatten(rest);
      assert |f| > SPI_CHUNK;
      assert f[..SPI_CHUNK] == cs[0];
      assert f[SPI_CHUNK..] == Flatten(rest);
      assert cs == [cs[0]] + rest;
    }
  }

  // ---------------------------------------------------------------------
  // Reading a record back

  lemma {:induction false} PayloadAppend(a: seq<Event>, b: seq<Event>)
    ensures Payload(a + b) == Payload(a) + Payload(b)
    decreases |a|
  {
    if a == [] {
      assert a + b == b;
    } else {
      assert (a + b)[1..] == a[1..] + b;
      PayloadAppend(a[1..], b);
    }
  }

  lemma {:induction false} PayloadDatas(args: seq<bv8>)
    ensures Payload(Datas(args)) == args
    decreases |args|
  {
    if args != [] {
      assert Datas(args)[1..] == Datas(args[1..]);
      PayloadDatas(args[1..]);
    }
  }

  lemma {:induction false} PayloadDataBufs(chunks: seq<seq<bv8>>)
    ensures Payload(DataBufs(chunks)) == Flatten(chunks)
    decreases |chunks|
  {
    if chunks != [] {
      assert DataBufs(chunks)[1..] == DataBufs(chunks[1..]);
      PayloadDataBufs(chunks[1..]);
    }
  }

  /** A record that cannot be continued by data: empty, or starting with a non-data event. */
  predicate Closed(t: seq<Event>) {
    t == [] || !IsData(t[0])
  }

  /** The data run at the front of `d + rest`, when `d` is all data and `rest` is closed. */
  lemma {:induction false} DataRunOf(d: seq<Event>, rest: seq<Event>)
    requires forall i :: 0 <= i < |d| ==> IsData(d[i])
    requires Closed(rest)
    ensures DataRun(d + rest) == |d|
    decreases |d|
  {
    if d == [] {
      assert d + rest == rest;
    } else {
      assert (d + rest)[1..] == d[1..] + rest;
      DataRunOf(d[1..], rest);
    }
  }

  /** A command byte followed by a run of data, read back: one step with the run's bytes. */
  lemma CommandRun(c: bv8, d: seq<Event>, rest: seq<Event>)
    requires forall i :: 0 <= i < |d| ==> IsData(d[i])
    requires Closed(rest)
    ensures Steps([Cmd(c)] + d + rest) == [Command(c, Payload(d))] + Steps(rest)
  {
    var t := [Cmd(c)] + d + rest;
    assert t[1..] == d + rest;
    DataRunOf(d, rest);
    assert t[1..1 + |d|] == d;
    assert t[1 + |d|..] == rest;
  }

  /** A command at the front of `a` takes the same data run when a closed `b` follows. */
  lemma CommandHead(a: seq<Event>, b: seq<Event>)
    requires a != [] && a[0].Cmd? && Closed(b)
    ensures var n := DataRun(a[1..]);
      Steps(a + b) == [Command(a[0].code, Payload(a[1..1 + n]))] + Steps(a[1 + n..] + b)
  {
    var n := DataRun(a[1..]);
    var d, r := a[1..1 + n], a[1 + n..];
    assert a == [a[0]] + d + r;
    AppendAssoc([a[0]] + d, r, b);
    assert Closed(r + b) by {
      if r == [] { assert r + b == b; } else { assert (r + b)[0] == r[0]; }
    }
    CommandRun(a[0].code, d, r + b);
  }

  /** Reading back a record made of a closed head and a closed tail. */
  lemma {:induction false} StepsAppend(a: seq<Event>, b: seq<Event>)
    requires Closed(b)
    ensures Steps(a + b) == Steps(a) + Steps(b)
    decreases |a|, 1
  {
    if a == [] {
      assert a + b == b;
    } else if a[0].Cmd? {
      StepsAppendCommand(a, b);
    } else {
      assert (a + b)[0] == a[0];
      assert (a + b)[1..] == a[1..] + b;
      StepsAppend(a[1..], b);
    }
  }

  /** StepsAppend when `a` starts with a command byte. */
  lemma {:induction false} StepsAppendCommand(a: seq<Event>, b: seq<Event>)
    requires a != [] && a[0].Cmd? && Closed(b)
    ensures Steps(a + b) == Steps(a) + Steps(b)
    decreases |a|, 0
  {
    var n := DataRun(a[1..]);
    var head, r := [Command(a[0].code, Payload(a[1..1 + n]))], a[1 + n..];
    assert Steps(a) == head + Steps(r);
    CommandHead(a, b);
    StepsAppend(r, b);
    StepAssoc(head, Steps(r), Steps(b));
  }

  lemma {:induction false} EncodeAppend(a: seq<Step>, b: seq<Step>)
    ensures Encode(a + b) == Encode(a) + Encode(b)
    decreases |a|
  {
    if a == [] {
      assert a + b == b;
    } else {
      assert (a + b)[1..] == a[1..] + b;
      EncodeAppend(a[1..], b);
    }
  }

  /** Issuing more steps after a record of issued steps. */
  lemma EncodeSnoc(start: seq<Event>, sent: seq<Step>, steps: seq<Step>)
    ensures start + Encode(sent) + Encode(steps) == start + Encode(sent + steps)
  {
    EncodeAppend(sent, steps);
  }

  lemma EncodeClosed(ss: seq<Step>)
    ensures Closed(Encode(ss))
  {
    if ss != [] {
      assert Encode(ss)[0] == StepEvents(ss[0])[0];
    }
  }

  /** The controller reads back exactly the steps the driver encoded. */
  lemma {:induction false} DecodeEncode(ss: seq<Step>)
    ensures Steps(Encode(ss)) == ss
    decreases |ss|
  {
    if ss != [] {
      var rest := Encode(ss[1..]);
      EncodeClosed(ss[1..]);
      DecodeEncode(ss[1..]);
      match ss[0]
      case Command(c, args) =>
        CommandRun(c, Datas(args), rest);
        PayloadDatas(args);
        assert Encode(ss) == [Cmd(c)] + Datas(args) + rest;
      case Start(m, d) =>
        assert Encode(ss) == [Setup(m, d)] + rest;
        assert Encode(ss)[1..] == rest;
      case Pulse(ms) =>
        assert Encode(ss) == [Reset(ms)] + rest;
        assert Encode(ss)[1..] == rest;
      case Busy =>
        assert Encode(ss) == [WaitBusy] + rest;
        assert Encode(ss)[1..] == rest;
    }
  }

  /** A command byte followed by a streamed transfer reads back as one step carrying all of the bytes. */
  lemma StreamedCommand(c: bv8, bytes: seq<bv8>, rest: seq<Event>)
    requires Closed(rest)
    ensures Steps([Cmd(c)] + DataBufs(Chunks(bytes)) + rest) == [Command(c, bytes)] + Steps(rest)
  {
    CommandRun(c, DataBufs(Chunks(bytes)), rest);
    PayloadDataBufs(Chunks(bytes));
    ChunksSound(bytes);
  }

  // ---------------------------------------------------------------------
  // Regrouping for the proofs only: associativity and arithmetic steps
  // that the proofs above call; they state nothing about the driver.

  lemma StepAssoc(a: seq<Step>, b: seq<Step>, c: seq<Step>)
    ensures a + (b + c) == a + b + c
  {
  }

  /** Appending to a record in two goes. */
  lemma AppendAssoc(a: seq<Event>, b: seq<Event>, c: seq<Event>)
    ensures a + b + c == a + (b + c)
  {
  }
}
