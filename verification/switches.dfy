/** Switch of utils.h: a debounced input bound to the devices it controls,
    with prefix-based discovery and command dispatch. */
module Switches {

  import opened Lists
  import opened CStrings
  import opened Debounce
  import opened Devices

  /** Switch::Type: a latching switch reports both edges, a momentary one
      only its press. */
  datatype SwitchType = Latching | Momentary

  /** Switch::Cmd. */
  datatype Cmd = On | Off | Toggle

  /** One MQTT publish. */
  datatype Message = Message(topic: CString, payload: CString)

  /** A switch: its type, display name and input, the name prefixes it is
      interested in (find_device_list) and the devices it has found
      (found_device_list). */
  datatype Switch = Switch(kind: SwitchType, name: CString, input: Input,
                           interest: DeviceList, bound: DeviceList)

  /** The Switch constructor, apart from registering itself (the switch list
      is built explicitly here). */
  function NewSwitch(kind: SwitchType, name: CString): (sw: Switch)
    ensures sw.kind == kind && sw.name == name && sw.input == Fresh()
    ensures sw.interest == [] && sw.bound == []
  {
    Switch(kind, name, Fresh(), [], [])
  }

  /** Switch::init: initialise the input from one sample. */
  function InitSwitch(sw: Switch, now: Millis, pinHigh: bool): (r: Switch)
    ensures r.input.value == RawValue(sw.input, pinHigh) && r.input.lastChange == now
    ensures r.input.activeHigh == sw.input.activeHigh
    ensures r.kind == sw.kind && r.name == sw.name
    ensures r.interest == sw.interest && r.bound == sw.bound
  {
    sw.(input := Init(sw.input, now, pinHigh))
  }

  /** Switch::find_device: declare interest in devices whose name starts
      with `prefix` (OnOff unless stated). A prefix already declared keeps
      its first mode. */
  function FindDevice(sw: Switch, prefix: CString, mode: ControlMode := OnOff): (r: Switch)
    ensures r.kind == sw.kind && r.name == sw.name && r.input == sw.input && r.bound == sw.bound
    ensures Has(sw.interest, prefix) ==> r.interest == sw.interest
    ensures !Has(sw.interest, prefix) ==> r.interest == sw.interest + [Device(prefix, mode)]
  {
    sw.(interest := Add(sw.interest, prefix, mode).list)
  }

  /** The mode of the first interest entry that is a prefix of `deviceName`. */
  function FirstMatch(interest: DeviceList, deviceName: CString): (r: Option<ControlMode>)
    ensures r.None? <==> forall i :: 0 <= i < |interest| ==> !(interest[i].name <= deviceName)
    ensures r.Some? ==>
              exists i :: 0 <= i < |interest| && interest[i].name <= deviceName && interest[i].mode == r.value
                          && forall j :: 0 <= j < i ==> !(interest[j].name <= deviceName)
  {
    if |interest| == 0 then None
    else if StartsWith(deviceName, interest[0].name) then Some(interest[0].mode)
    else
      var r := FirstMatch(interest[1..], deviceName);
      assert forall i :: 1 <= i < |interest| ==> interest[i] == interest[1..][i - 1];
      if r.Some? then
        var i :| 0 <= i < |interest[1..]| && interest[1..][i].name <= deviceName && interest[1..][i].mode == r.value
                 && forall j :: 0 <= j < i ==> !(interest[1..][j].name <= deviceName);
        assert interest[i + 1] == interest[1..][i];
        r
      else r
  }

  /** The loop of Switch::found_device: walk the interest list in order and
      add `topicName`, with the entry's mode, for each entry that is a
      prefix of `deviceName`. Because add ignores a name already present,
      the first matching entry decides the mode. */
  function Discover(bound: DeviceList, interest: DeviceList, deviceName: CString, topicName: CString): (r: DeviceList)
    ensures Has(bound, topicName) ==> r == bound
    ensures !Has(bound, topicName) ==>
              r == (match FirstMatch(interest, deviceName)
                    case None => bound
                    case Some(m) => bound + [Device(topicName, m)])
    decreases |interest|
  {
    if |interest| == 0 then bound
    else
      var bound' := if StartsWith(deviceName, interest[0].name)
                    then Add(bound, topicName, interest[0].mode).list
                    else bound;
      assert !Has(bound, topicName) && bound' != bound ==> Has(bound', topicName) by {
        if !Has(bound, topicName) && bound' != bound {
          assert bound'[|bound|].name == topicName;
        }
      }
      Discover(bound', interest[1..], deviceName, topicName)
  }

  /** Switch::found_device: a device announcement. */
  function FoundDevice(sw: Switch, deviceName: CString, topicName: CString): (r: Switch)
    ensures r.kind == sw.kind && r.name == sw.name && r.input == sw.input && r.interest == sw.interest
    ensures |sw.bound| <= |r.bound| && r.bound[..|sw.bound|] == sw.bound
    ensures FirstMatch(sw.interest, deviceName).None? ==> r == sw
    ensures Has(sw.bound, topicName) ==> r == sw
  {
    sw.(bound := Discover(sw.bound, sw.interest, deviceName, topicName))
  }

  /** Repeating an announcement leaves the switch as the first one left it. */
  lemma FoundDeviceIdempotent(sw: Switch, deviceName: CString, topicName: CString)
    ensures var once := FoundDevice(sw, deviceName, topicName);
            FoundDevice(once, deviceName, topicName) == once
  {
    var once := FoundDevice(sw, deviceName, topicName);
    if !Has(sw.bound, topicName) && FirstMatch(sw.interest, deviceName).Some? {
      assert once.bound[|sw.bound|].name == topicName;
    }
  }

  /** Announcements never bind one topic twice. */
  lemma FoundDeviceKeepsUnique(sw: Switch, deviceName: CString, topicName: CString)
    requires UniqueNames(sw.bound)
    ensures UniqueNames(FoundDevice(sw, deviceName, topicName).bound)
  {
  }

  /** Switch::cmd_to_str: the payload of a command. */
  function Payload(cmd: Cmd): (s: CString)
    ensures s == "On" || s == "Off" || s == "TOGGLE"
  {
    match cmd
    case On => "On"
    case Off => "Off"
    case Toggle => "TOGGLE"
  }

  /** Distinct commands have distinct payloads. */
  lemma PayloadInjective(a: Cmd, b: Cmd)
    ensures Payload(a) == Payload(b) ==> a == b
  {
  }

  /** Switch::cmd_matches_control_mode: OnOff accepts every command, OnOnly
      only On, OffOnly only Off, so only OnOff accepts Toggle. */
  function Permits(cmd: Cmd, mode: ControlMode): (r: bool)
    ensures mode == OnOff ==> r
    ensures cmd == On ==> (r <==> mode != OffOnly)
    ensures cmd == Off ==> (r <==> mode != OnOnly)
    ensures cmd == Toggle ==> (r <==> mode == OnOff)
  {
    match mode
    case OnOff => true
    case OnOnly => cmd == On
    case OffOnly => cmd == Off
  }

  /** The dispatch loop of Switch::check: one publish per bound device whose
      mode accepts `cmd`, in list order. */
  function Publish(bound: DeviceList, cmd: Cmd): (r: seq<Message>)
    ensures |r| <= |bound|
    ensures forall m :: m in r ==> m.payload == Payload(cmd)
    ensures forall m :: m in r ==> exists d :: d in bound && Permits(cmd, d.mode) && m.topic == Topic(d.name)
  {
    if |bound| == 0 then []
    else
      var rest := Publish(bound[1..], cmd);
      assert forall d :: d in bound[1..] ==> d in bound;
      (if Permits(cmd, bound[0].mode) then [Message(Topic(bound[0].name), Payload(cmd))] else []) + rest
  }

  /** Publishing respects list order: the messages for a list are those for
      its front followed by those for its back. */
  lemma {:induction false} PublishAppend(a: DeviceList, b: DeviceList, cmd: Cmd)
    ensures Publish(a + b, cmd) == Publish(a, cmd) + Publish(b, cmd)
  {
    if |a| == 0 {
      assert a + b == b;
    } else {
      assert (a + b)[0] == a[0];
      assert (a + b)[1..] == a[1..] + b;
      PublishAppend(a[1..], b, cmd);
    }
  }

  /** With unique names, a device receives exactly one publish if its mode
      accepts the command and none otherwise. */
  lemma {:induction false} OnePublishPerDevice(bound: DeviceList, cmd: Cmd, name: CString)
    requires UniqueNames(bound)
    ensures multiset(Publish(bound, cmd))[Message(Topic(name), Payload(cmd))] ==
            (if exists i :: 0 <= i < |bound| && bound[i].name == name && Permits(cmd, bound[i].mode) then 1 else 0)
  {
    if |bound| > 0 {
      var rest := bound[1..];
      assert UniqueNames(rest) by {
        forall i, j | 0 <= i < j < |rest| ensures rest[i].name != rest[j].name {
          assert rest[i] == bound[i + 1] && rest[j] == bound[j + 1];
        }
      }
      OnePublishPerDevice(rest, cmd, name);
      var msg := Message(Topic(name), Payload(cmd));
      var head := if Permits(cmd, bound[0].mode) then [Message(Topic(bound[0].name), Payload(cmd))] else [];
      assert Publish(bound, cmd) == head + Publish(rest, cmd);
      assert multiset(Publish(bound, cmd)) == multiset(head) + multiset(Publish(rest, cmd));
      TopicInjective(bound[0].name, name);
      if bound[0].name == name {
        assert forall i :: 0 <= i < |rest| ==> rest[i].name != name by {
          forall i | 0 <= i < |rest| ensures rest[i].name != name {
            assert rest[i] == bound[i + 1];
          }
        }
      } else {
        assert multiset(head)[msg] == 0;
        if exists i :: 0 <= i < |bound| && bound[i].name == name && Permits(cmd, bound[i].mode) {
          var i :| 0 <= i < |bound| && bound[i].name == name && Permits(cmd, bound[i].mode);
          assert rest[i - 1] == bound[i];
        }
        if exists i :: 0 <= i < |rest| && rest[i].name == name && Permits(cmd, rest[i].mode) {
          var i :| 0 <= i < |rest| && rest[i].name == name && Permits(cmd, rest[i].mode);
          assert bound[i + 1] == rest[i];
        }
      }
    }
  }

  /** The command a committed edge to `value` stands for, if any: On or Off
      for a latching switch, Toggle for a momentary one on its press only. */
  function Command(kind: SwitchType, value: bool): (r: Option<Cmd>)
    ensures kind == Latching ==> r == Some(if value then On else Off)
    ensures kind == Momentary ==> r == (if value then Some(Toggle) else None)
  {
    if kind == Latching || value then
      Some(if kind == Latching then (if value then On else Off) else Toggle)
    else None
  }

  /** The switch after a poll and the messages it published. */
  datatype Checked = Checked(sw: Switch, sent: seq<Message>)

  /** Switch::check: poll the input; on a committed edge that has a command,
      publish it to every bound device whose mode accepts it. */
  function Check(sw: Switch, now: Millis, pinHigh: bool): (r: Checked)
    ensures r.sw == sw.(input := Changed(sw.input, now, pinHigh).input)
    ensures !Changed(sw.input, now, pinHigh).changed ==> r.sent == []
    ensures Changed(sw.input, now, pinHigh).changed && sw.kind == Latching ==>
              r.sent == Publish(sw.bound, if r.sw.input.value then On else Off)
    ensures sw.kind == Momentary ==>
              r.sent == (if Changed(sw.input, now, pinHigh).changed && r.sw.input.value
                         then Publish(sw.bound, Toggle) else [])
  {
    var p := Changed(sw.input, now, pinHigh);
    var sw' := sw.(input := p.input);
    if p.changed then
      match Command(sw.kind, p.input.value)
      case Some(cmd) => Checked(sw', Publish(sw.bound, cmd))
      case None => Checked(sw', [])
    else Checked(sw', [])
  }

  /** A bound device never receives a command its mode rejects: no On for
      OffOnly, no Off for OnOnly, and no Toggle for either. */
  lemma CheckRespectsModes(sw: Switch, now: Millis, pinHigh: bool, d: Device)
    requires UniqueNames(sw.bound) && d in sw.bound
    ensures var sent := Check(sw, now, pinHigh).sent;
            && (d.mode == OffOnly ==> Message(Topic(d.name), Payload(On)) !in sent)
            && (d.mode == OnOnly ==> Message(Topic(d.name), Payload(Off)) !in sent)
            && (d.mode != OnOff ==> Message(Topic(d.name), Payload(Toggle)) !in sent)
  {
    var sent := Check(sw, now, pinHigh).sent;
    var k :| 0 <= k < |sw.bound| && sw.bound[k] == d;
    forall cmd: Cmd | !Permits(cmd, d.mode)
      ensures Message(Topic(d.name), Payload(cmd)) !in sent
    {
      forall c: Cmd ensures Message(Topic(d.name), Payload(cmd)) !in Publish(sw.bound, c) || c == cmd {
        PayloadInjective(c, cmd);
      }
      OnePublishPerDevice(sw.bound, cmd, d.name);
    }
  }
}
