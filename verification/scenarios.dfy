/** Worked configurations: what the engine does for concrete switches,
    announcements and samples. */
module Scenarios {

  import opened Lists
  import opened CStrings
  import opened Debounce
  import opened Devices
  import opened Switches

  /** A latching switch interested in one prefix with mode OnOnly (say
      "Kitchen") binds an announced device that starts with it (say
      "Kitchen-Lamp-1", topic "kitchen_lamp_1") with that mode, switches it on
      when flipped on, and sends nothing when flipped off. */
  lemma OnOnlyDeviceIgnoresOffEdge(name: CString, prefix: CString, deviceName: CString, topicName: CString,
                                   t0: Millis, t1: Millis, t2: Millis)
    requires prefix <= deviceName
    requires Elapsed(t1, t0) > DebounceDelay && Elapsed(t2, t1) > DebounceDelay
    ensures var sw := FoundDevice(FindDevice(NewSwitch(Latching, name), prefix, OnOnly), deviceName, topicName);
            && sw.bound == [Device(topicName, OnOnly)]
            && var on := Check(InitSwitch(sw, t0, false), t1, true);
               && on.sent == [Message(Topic(topicName), "On")]
               && Check(on.sw, t2, false).sent == []
  {
  }

  /** Two different prefixes declared in turn (say "Hall" then "Hall-Light")
      that both start an announced name (say "Hall-Light-2"): the bound list
      ignores a topic it already has, so only the first entry binds the
      device, with its mode. */
  lemma OverlappingPrefixesBindOnce(name: CString, p1: CString, m1: ControlMode, p2: CString, m2: ControlMode,
                                    deviceName: CString, topicName: CString)
    requires p1 != p2 && p1 <= deviceName && p2 <= deviceName
    ensures FoundDevice(FindDevice(FindDevice(NewSwitch(Latching, name), p1, m1), p2, m2), deviceName, topicName).bound
            == [Device(topicName, m1)]
  {
  }

  /** With the first prefix OnOff, an Off edge of that switch publishes once
      to the device, not once per matching prefix. */
  lemma OverlappingPrefixesPublishOnce(name: CString, p1: CString, p2: CString, m2: ControlMode,
                                       deviceName: CString, topicName: CString, t0: Millis, t1: Millis, t2: Millis)
    requires p1 != p2 && p1 <= deviceName && p2 <= deviceName
    requires Elapsed(t1, t0) > DebounceDelay && Elapsed(t2, t1) > DebounceDelay
    ensures var sw := FoundDevice(FindDevice(FindDevice(NewSwitch(Latching, name), p1, OnOff), p2, m2),
                                  deviceName, topicName);
            var on := Check(InitSwitch(sw, t0, false), t1, true);
            Check(on.sw, t2, false).sent == [Message(Topic(topicName), "Off")]
  {
  }

  /** A momentary switch interested in one OnOff prefix sends exactly one
      `TOGGLE` to an announced device that starts with it when pressed. */
  lemma MomentaryPressSendsToggle(name: CString, prefix: CString, deviceName: CString, topicName: CString,
                                  t0: Millis, t1: Millis)
    requires prefix <= deviceName
    requires Elapsed(t1, t0) > DebounceDelay
    ensures var sw := FoundDevice(FindDevice(NewSwitch(Momentary, name), prefix, OnOff), deviceName, topicName);
            Check(InitSwitch(sw, t0, false), t1, true).sent == [Message(Topic(topicName), "TOGGLE")]
  {
  }

  /** A single high sample after a quiet spell is committed at once, and the
      low level that follows, sampled every 90 ms, is never committed: the
      input stays high. */
  lemma GlitchIsCommittedAndSticks()
    ensures var start := Init(Fresh(), 0, false);
            var p := Changed(start, 200, true);
            && p.changed && p.input.value
            && var r := Run(p.input, [Sample(290, false), Sample(380, false), Sample(470, false)]);
               && true !in r.edges && r.input.value
  {
  }

  /** The elapsed time survives the clock wrapping past 2^32 - 1. */
  lemma ElapsedAcrossWrap()
    ensures Elapsed(0x10, 0xFFFF_FFF0) == 0x20
    ensures !Changed(Input(true, 0xFFFF_FFF0, false), 0x10, true).changed
    ensures Changed(Input(true, 0xFFFF_FFF0, false), 0x60, true).changed
  {
  }
}
