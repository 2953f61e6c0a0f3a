/** The acquisition task `read_adc_channels`: it seeds a fresh smoothing
    buffer, then on every iteration reads channel 0 (the reference
    resistor) and the die-temperature channel, publishing the smoothed
    channel-0 average and the raw temperature sample on two watches. */
module Acquisition {
  import opened Samples
  import opened RingBuffer
  import opened Broadcast

  /** The sample the buffer is seeded with before the first iteration. */
  const SEED: u16 := 4094

  /** Outcome of one `Adc::read` on a channel; the error's kind is not modelled. */
  datatype ReadResult = Ok(value: u16) | Err

  /** What one iteration reads: channel 0 first, then the die-temperature channel. */
  datatype Readings = Readings(adc0: ReadResult, temp: ReadResult)

  /** The sender-side state of one watch: its slot and its version. */
  datatype Published = Published(slot: Option<u16>, version: nat)

  /** Everything an iteration reads or changes: the buffer's window (oldest
      first) and the two published watches, `ADC0_CHANNEL` and `ADCTEMP_CHANNEL`. */
  datatype State = State(window: seq<u16>, adc0: Published, temp: Published)

  /** The effect of a `send` on a watch. */
  function Publish(p: Published, v: u16): Published {
    Published(Some(v), p.version + 1)
  }

  /** Rust's `x as u16` on an unsigned value: only the low 16 bits are kept. */
  function AsU16(x: nat): u16 {
    x % U16_MODULUS
  }

  /** The state right after the buffer is created and seeded, before the loop. */
  function Start(adc0: Published, temp: Published): State {
    State([SEED], adc0, temp)
  }

  /** Channel-0 samples that a sequence of iterations read successfully, in order. */
  function Adc0Samples(rs: seq<Readings>): seq<u16> {
    if rs == [] then []
    else
      var init := Adc0Samples(rs[..|rs| - 1]);
      match rs[|rs| - 1].adc0
      case Ok(v) => init + [v]
      case Err => init
  }

  /** Temperature samples that a sequence of iterations read successfully, in order. */
  function TempSamples(rs: seq<Readings>): seq<u16> {
    if rs == [] then []
    else
      var init := TempSamples(rs[..|rs| - 1]);
      match rs[|rs| - 1].temp
      case Ok(v) => init + [v]
      case Err => init
  }

  /** Every successful channel-0 reading fits in 12 bits. */
  predicate Adc0TwelveBit(rs: seq<Readings>) {
    forall i :: 0 <= i < |rs| ==> rs[i].adc0.Ok? ==> rs[i].adc0.value <= ADC_MAX
  }

  lemma WriteKeepsTwelveBit(s: seq<u16>, v: u16)
    requires |s| <= CAPACITY && IsTwelveBit(s) && v <= ADC_MAX
    ensures IsTwelveBit(Write(s, v))
  {
    var w := Write(s, v);
    forall i | 0 <= i < |w|
      ensures w[i] <= ADC_MAX
    {
      if i < |w| - 1 {
        assert w[i] == if |s| < CAPACITY then s[i] else s[i + 1];
      }
    }
  }

  /** The channel-0 half of an iteration (adc.rs lines 130-141). */
  function Channel0(s: State, r: ReadResult): (t: State)
    requires |s.window| <= CAPACITY
    ensures |s.window| <= |t.window| <= CAPACITY
    ensures t.temp == s.temp
    // A failed read leaves the buffer and ADC0_CHANNEL as they were.
    ensures r.Err? ==> t == s
    // A successful one adds the sample and publishes exactly the new average:
    // the cast to u16 loses nothing.
    ensures r.Ok? ==> t.window == Write(s.window, r.value)
    ensures r.Ok? ==> t.adc0 == Published(Some(WindowAverage(t.window)), s.adc0.version + 1)
  {
    match r
    case Ok(v) =>
      var w := Write(s.window, v);
      State(w, Publish(s.adc0, AsU16(WindowAverage(w))), s.temp)
    case Err => s
  }

  /** With 12-bit samples, what a successful channel-0 read publishes is the
      true truncated mean of the new window, between its smallest and largest
      entry. */
  lemma Channel0PublishesMean(s: State, v: u16)
    requires |s.window| <= CAPACITY && IsTwelveBit(s.window) && v <= ADC_MAX
    ensures var t := Channel0(s, Ok(v));
      IsTwelveBit(t.window) &&
      t.adc0.slot == Some(Sum(t.window) / |t.window|) &&
      SeqMin(t.window) <= Sum(t.window) / |t.window| <= SeqMax(t.window)
  {
    WriteKeepsTwelveBit(s.window, v);
  }

  /** The die-temperature half of an iteration (adc.rs lines 183-191). */
  function TempChannel(s: State, r: ReadResult): (t: State)
    ensures t.window == s.window && t.adc0 == s.adc0
    // A successful read publishes the raw sample, not a converted temperature.
    ensures r.Ok? ==> t.temp == Published(Some(r.value), s.temp.version + 1)
    // A failed read leaves ADCTEMP_CHANNEL as it was.
    ensures r.Err? ==> t.temp == s.temp
  {
    match r
    case Ok(raw) => s.(temp := Publish(s.temp, raw))
    case Err => s
  }

  /** One iteration of the acquisition loop: channel 0, then the die temperature. */
  function Step(s: State, r: Readings): (t: State)
    requires |s.window| <= CAPACITY
    ensures |s.window| <= |t.window| <= CAPACITY
  {
    TempChannel(Channel0(s, r.adc0), r.temp)
  }

  /** The state after the iterations `rs`, in order, starting from `s`. */
  function Run(s: State, rs: seq<Readings>): (t: State)
    requires |s.window| <= CAPACITY
    ensures |s.window| <= |t.window| <= CAPACITY
  {
    if rs == [] then s else Step(Run(s, rs[..|rs| - 1]), rs[|rs| - 1])
  }

  /** Once seeded, the buffer is never empty again, so `get_all` never
      divides by zero. */
  lemma NeverEmpty(adc0: Published, temp: Published, rs: seq<Readings>)
    ensures 1 <= |Run(Start(adc0, temp), rs).window| <= CAPACITY
  {
  }

  /** After any run, the window is the last 16 of the seed and every
      successful channel-0 reading, in read order. */
  lemma {:induction false} RunWindow(s: State, rs: seq<Readings>)
    requires |s.window| <= CAPACITY
    ensures Run(s, rs).window == LastWindow(s.window + Adc0Samples(rs))
  {
    if rs == [] {
      assert s.window + [] == s.window;
    } else {
      var init := rs[..|rs| - 1];
      RunWindow(s, init);
      var prev := Run(s, init);
      match rs[|rs| - 1].adc0
      case Ok(v) =>
        WriteIsLastWindow(prev.window, v);
        LastWindowAppend(s.window + Adc0Samples(init), [v]);
        assert s.window + Adc0Samples(init) + [v] == s.window + Adc0Samples(rs);
      case Err =>
    }
  }

  /** Each watch's version advances once per successful read of its channel
      and never otherwise. */
  lemma {:induction false} RunVersions(s: State, rs: seq<Readings>)
    requires |s.window| <= CAPACITY
    ensures Run(s, rs).adc0.version == s.adc0.version + |Adc0Samples(rs)|
    ensures Run(s, rs).temp.version == s.temp.version + |TempSamples(rs)|
  {
    if rs != [] {
      RunVersions(s, rs[..|rs| - 1]);
    }
  }

  /** ADCTEMP_CHANNEL holds the raw sample of the last successful
      temperature read; failed reads publish nothing stale or duplicate. */
  lemma {:induction false} RunLatestTemp(s: State, rs: seq<Readings>)
    requires |s.window| <= CAPACITY
    ensures var ts := TempSamples(rs);
      Run(s, rs).temp.slot == if ts == [] then s.temp.slot else Some(ts[|ts| - 1])
  {
    if rs != [] {
      RunLatestTemp(s, rs[..|rs| - 1]);
    }
  }

  /** Once channel 0 has been read successfully, ADC0_CHANNEL holds the
      average of the current window; until then it is untouched. With
      12-bit readings the window stays 12-bit and that average is the
      exact truncated mean. */
  lemma {:induction false} RunLatestAdc0(adc0: Published, temp: Published, rs: seq<Readings>)
    requires Adc0TwelveBit(rs)
    ensures var t := Run(Start(adc0, temp), rs);
      IsTwelveBit(t.window) &&
      t.adc0.slot == if Adc0Samples(rs) == [] then adc0.slot else Some(Sum(t.window) / |t.window|)
  {
    if rs == [] {
    } else {
      var init := rs[..|rs| - 1];
      assert Adc0TwelveBit(init) by {
        forall i | 0 <= i < |init| ensures init[i] == rs[i] { }
      }
      RunLatestAdc0(adc0, temp, init);
    }
  }

  /** Seed 4094, then three successful readings 100, 200 and 300: the
      published average is 4694 / 4 = 1173. */
  lemma ExampleAverage(adc0: Published, temp: Published)
    ensures Run(Start(adc0, temp),
                [Readings(Ok(100), Err), Readings(Ok(200), Err), Readings(Ok(300), Err)]).adc0
            == Published(Some(1173), adc0.version + 3)
  {
    var r1, r2, r3 := Readings(Ok(100), Err), Readings(Ok(200), Err), Readings(Ok(300), Err);
    var s0 := Start(adc0, temp);
    assert [r1, r2, r3][..2] == [r1, r2];
    assert [r1, r2][..1] == [r1];
    assert [r1][..0] == [];
    var s1 := Channel0(s0, Ok(100));
    assert s1.window == [4094, 100];
    assert Run(s0, [r1]) == s1;
    var s2 := Channel0(s1, Ok(200));
    assert s2.window == [4094, 100, 200];
    assert Run(s0, [r1, r2]) == s2;
    var s3 := Channel0(s2, Ok(300));
    assert s3.window == [4094, 100, 200, 300];
    assert Run(s0, [r1, r2, r3]) == s3;
    ExampleSum();
    Channel0PublishesMean(s2, 300);
  }

  lemma ExampleSum()
    ensures Sum([4094, 100, 200, 300]) == 4694
  {
    assert [4094, 100, 200, 300][..3] == [4094, 100, 200];
    assert [4094, 100, 200][..2] == [4094, 100];
    assert [4094, 100][..1] == [4094];
    assert [4094][..0] == [];
  }

  /** The abstract state of the buffer and the two watches. */
  ghost function Observe(buf: HeaplessMutexRingBuffer, tx0: Watch<u16>, txTemp: Watch<u16>): State
    reads buf, buf.data, tx0, txTemp
    requires buf.Valid()
  {
    State(buf.Contents(), Published(tx0.slot, tx0.version), Published(txTemp.slot, txTemp.version))
  }

  /** One pass of the loop body: read channel 0, smooth and publish it;
      read the die temperature and publish the raw sample. */
  method Iteration(buf: HeaplessMutexRingBuffer, tx0: Watch<u16>, txTemp: Watch<u16>, r: Readings)
    requires buf.Valid() && tx0 != txTemp
    modifies buf, buf.data, tx0, txTemp
    ensures buf.Valid() && buf.data == old(buf.data)
    ensures Observe(buf, tx0, txTemp) == Step(old(Observe(buf, tx0, txTemp)), r)
  {
    ghost var before := Observe(buf, tx0, txTemp);
    match r.adc0 {
      case Ok(value) =>
        buf.Add(value);
        var avg := buf.GetAll();
        tx0.Send(AsU16(avg));
      case Err =>
    }
    ghost var between := Observe(buf, tx0, txTemp);
    assert between == Channel0(before, r.adc0);
    match r.temp {
      case Ok(raw) =>
        txTemp.Send(raw);
      case Err =>
    }
    assert Observe(buf, tx0, txTemp) == TempChannel(between, r.temp);
  }

  /** The task: create and seed the buffer, then run one iteration per
      entry of `readings` (the firmware loops forever, one second apart). */
  method ReadAdcChannels(tx0: Watch<u16>, txTemp: Watch<u16>, readings: seq<Readings>)
    requires tx0 != txTemp
    modifies tx0, txTemp
    ensures var t := Run(Start(old(Published(tx0.slot, tx0.version)), old(Published(txTemp.slot, txTemp.version))), readings);
      Published(tx0.slot, tx0.version) == t.adc0 && Published(txTemp.slot, txTemp.version) == t.temp
  {
    var tempRes := new HeaplessMutexRingBuffer();
    tempRes.Add(SEED);
    ghost var start := Start(Published(tx0.slot, tx0.version), Published(txTemp.slot, txTemp.version));
    var i := 0;
    while i < |readings|
      invariant 0 <= i <= |readings|
      invariant tempRes.Valid() && fresh(tempRes) && fresh(tempRes.data)
      invariant Observe(tempRes, tx0, txTemp) == Run(start, readings[..i])
    {
      Iteration(tempRes, tx0, txTemp, readings[i]);
      assert readings[..i + 1][..i] == readings[..i];
      i := i + 1;
    }
    assert readings[..|readings|] == readings;
  }
}
