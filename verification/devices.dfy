/** Device and DeviceList of utils.h: an insertion-ordered list of named
    devices, each with the commands it may receive. */
module Devices {

  import opened Lists
  import opened CStrings

  /** ControlMode: which commands a device accepts from a switch. */
  datatype ControlMode = OnOff | OnOnly | OffOnly

  datatype Device = Device(name: CString, mode: ControlMode)

  type DeviceList = seq<Device>

  /** Some entry of `list` is called `name`. */
  predicate Has(list: DeviceList, name: CString)
  {
    exists i :: 0 <= i < |list| && list[i].name == name
  }

  /** No two entries share a name. */
  predicate UniqueNames(list: DeviceList)
  {
    forall i, j :: 0 <= i < j < |list| ==> list[i].name != list[j].name
  }

  /** DeviceList::find: the position of the first entry called `name`. */
  function Find(list: DeviceList, name: CString): (r: Option<nat>)
    ensures r.None? <==> !Has(list, name)
    ensures r.Some? ==> r.value < |list| && list[r.value].name == name
    ensures r.Some? ==> forall j :: 0 <= j < r.value ==> list[j].name != name
  {
    if |list| == 0 then None
    else if EqualStrings(list[0].name, name) then Some(0)
    else
      match Find(list[1..], name)
      case None =>
        assert forall i :: 1 <= i < |list| ==> list[i] == list[1..][i - 1];
        None
      case Some(k) =>
        assert list[k + 1] == list[1..][k];
        assert forall j :: 1 <= j < k + 1 ==> list[j] == list[1..][j - 1];
        Some(k + 1)
  }

  /** The list after an add, and the entry the add returned. */
  datatype Added = Added(list: DeviceList, entry: Device)

  /** DeviceList::add: a name already present leaves the list as it is and
      returns the existing entry (so its first mode wins); a new name is
      appended at the tail. */
  function Add(list: DeviceList, name: CString, mode: ControlMode): (r: Added)
    ensures r.entry.name == name
    ensures Has(list, name) ==> r.list == list
    ensures Has(list, name) ==>
              exists i :: 0 <= i < |list| && r.entry == list[i] && forall j :: 0 <= j < i ==> list[j].name != name
    ensures !Has(list, name) ==> r.list == list + [Device(name, mode)] && r.entry == Device(name, mode)
  {
    match Find(list, name)
    case Some(i) => Added(list, list[i])
    case None => Added(Append(list, Device(name, mode)), Device(name, mode))
  }

  /** Adding keeps names unique, and the name is present afterwards. */
  lemma AddKeepsUnique(list: DeviceList, name: CString, mode: ControlMode)
    requires UniqueNames(list)
    ensures UniqueNames(Add(list, name, mode).list)
    ensures Has(Add(list, name, mode).list, name)
  {
  }

  /** A second add of the same name, whatever its mode, changes nothing and
      returns the entry of the first. */
  lemma AddIdempotent(list: DeviceList, name: CString, mode: ControlMode, mode': ControlMode)
    ensures var first := Add(list, name, mode);
            Add(first.list, name, mode') == first
  {
  }
}
