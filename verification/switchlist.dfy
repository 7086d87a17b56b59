/** SwitchList of utils.h: every switch, in registration order, with the
    three fan-out operations. */
module SwitchList {

  import opened Lists
  import opened CStrings
  import opened Debounce
  import opened Devices
  import opened Switches

  /** Every switch has bound each topic at most once. */
  predicate WellFormed(switches: seq<Switch>)
  {
    forall i :: 0 <= i < |switches| ==> UniqueNames(switches[i].bound)
  }

  /** SwitchList::init: initialise each switch from its own sample. */
  function InitAll(switches: seq<Switch>, samples: seq<Sample>): (r: seq<Switch>)
    requires |samples| == |switches|
    ensures |r| == |switches|
    ensures forall i :: 0 <= i < |switches| ==> r[i] == InitSwitch(switches[i], samples[i].now, samples[i].pinHigh)
  {
    if |switches| == 0 then []
    else [InitSwitch(switches[0], samples[0].now, samples[0].pinHigh)] + InitAll(switches[1..], samples[1..])
  }

  /** SwitchList::found_device: offer an announcement to every switch. */
  function FoundDeviceAll(switches: seq<Switch>, deviceName: CString, topicName: CString): (r: seq<Switch>)
    ensures |r| == |switches|
    ensures forall i :: 0 <= i < |switches| ==> r[i] == FoundDevice(switches[i], deviceName, topicName)
  {
    if |switches| == 0 then []
    else [FoundDevice(switches[0], deviceName, topicName)] + FoundDeviceAll(switches[1..], deviceName, topicName)
  }

  /** Re-announcing a device changes no switch. */
  lemma FoundDeviceAllIdempotent(switches: seq<Switch>, deviceName: CString, topicName: CString)
    ensures var once := FoundDeviceAll(switches, deviceName, topicName);
            FoundDeviceAll(once, deviceName, topicName) == once
  {
    var once := FoundDeviceAll(switches, deviceName, topicName);
    var twice := FoundDeviceAll(once, deviceName, topicName);
    forall i | 0 <= i < |switches| ensures twice[i] == once[i] {
      FoundDeviceIdempotent(switches[i], deviceName, topicName);
    }
  }

  /** Announcements keep every bound list free of duplicates. */
  lemma FoundDeviceAllKeepsWellFormed(switches: seq<Switch>, deviceName: CString, topicName: CString)
    requires WellFormed(switches)
    ensures WellFormed(FoundDeviceAll(switches, deviceName, topicName))
  {
  }

  /** The switches after a poll and everything they published, in order. */
  datatype Polled = Polled(switches: seq<Switch>, sent: seq<Message>)

  /** SwitchList::check: poll every switch, each with its own sample, and
      collect the publishes in registration order. */
  function CheckAll(switches: seq<Switch>, samples: seq<Sample>): (r: Polled)
    requires |samples| == |switches|
    ensures |r.switches| == |switches|
    ensures forall i :: 0 <= i < |switches| ==>
              r.switches[i] == Check(switches[i], samples[i].now, samples[i].pinHigh).sw
    ensures forall m :: m in r.sent ==>
              exists i :: 0 <= i < |switches| && m in Check(switches[i], samples[i].now, samples[i].pinHigh).sent
    ensures forall i, m :: 0 <= i < |switches| && m in Check(switches[i], samples[i].now, samples[i].pinHigh).sent ==>
              m in r.sent
  {
    if |switches| == 0 then Polled([], [])
    else
      var c := Check(switches[0], samples[0].now, samples[0].pinHigh);
      var rest := CheckAll(switches[1..], samples[1..]);
      assert forall i :: 1 <= i < |switches| ==> switches[1..][i - 1] == switches[i] && samples[1..][i - 1] == samples[i];
      Polled([c.sw] + rest.switches, c.sent + rest.sent)
  }

  /** Polling respects registration order: the publishes of a list of
      switches are those of its front followed by those of its back. */
  lemma {:induction false} CheckAllAppend(a: seq<Switch>, b: seq<Switch>, sa: seq<Sample>, sb: seq<Sample>)
    requires |sa| == |a| && |sb| == |b|
    ensures CheckAll(a + b, sa + sb).sent == CheckAll(a, sa).sent + CheckAll(b, sb).sent
  {
    if |a| == 0 {
      assert a + b == b && sa + sb == sb;
    } else {
      assert (a + b)[0] == a[0] && (sa + sb)[0] == sa[0];
      assert (a + b)[1..] == a[1..] + b && (sa + sb)[1..] == sa[1..] + sb;
      CheckAllAppend(a[1..], b, sa[1..], sb);
    }
  }

  /** Registration order is dispatch order: a switch registered after the
      others (the constructor's `all_switches.add(this)`) publishes after all
      of them in a poll. */
  lemma RegistrationOrderIsDispatchOrder(switches: seq<Switch>, samples: seq<Sample>, sw: Switch, sample: Sample)
    requires |samples| == |switches|
    ensures CheckAll(Append(switches, sw), samples + [sample]).sent
            == CheckAll(switches, samples).sent + Check(sw, sample.now, sample.pinHigh).sent
  {
    CheckAllAppend(switches, [sw], samples, [sample]);
    assert CheckAll([sw], [sample]).sent == Check(sw, sample.now, sample.pinHigh).sent + CheckAll([], []).sent;
  }

  /** Polling never changes what the switches are bound to. */
  lemma CheckAllKeepsWellFormed(switches: seq<Switch>, samples: seq<Sample>)
    requires |samples| == |switches| && WellFormed(switches)
    ensures forall i :: 0 <= i < |switches| ==> CheckAll(switches, samples).switches[i].bound == switches[i].bound
    ensures WellFormed(CheckAll(switches, samples).switches)
  {
  }
}
