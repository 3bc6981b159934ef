/** The view-model of the dashboard client: the status refresh (status table,
    transition notices, online flags merged into the device list), the grouping
    of devices by group name, the timer countdown, the password-change check
    and the theme toggle. */
module Dashboard {
  import opened Wrappers
  import opened Text

  /** A device as the client holds it. `isOnline` is absent until the first
      refresh. */
  datatype Device = Device(id: int, name: string, ip: string, mac: string,
                           groupName: Option<string>, isOnline: Option<bool>)

  /** One entry of the server's reply to a status request. */
  datatype ProbeResult = ProbeResult(id: int, isOnline: bool)

  /** A desktop notification: the device's name and its new state. */
  datatype Notice = Notice(deviceName: string, online: bool)

  // ---------------------------------------------------------------------------
  // Status refresh

  /** The status table built from a reply: each id maps to the value of the
      last entry carrying it. */
  function StatusMapOf(results: seq<ProbeResult>): map<int, bool>
  {
    if results == [] then map[]
    else
      var last := results[|results| - 1];
      StatusMapOf(results[..|results| - 1])[last.id := last.isOnline]
  }

  /** An id is in the table exactly when the reply mentions it, and its value
      is that of the last entry with that id. */
  lemma {:induction false} StatusMapLastWins(results: seq<ProbeResult>)
    ensures forall id :: id in StatusMapOf(results) <==> exists k :: 0 <= k < |results| && results[k].id == id
    ensures forall k :: (0 <= k < |results| && forall j :: k < j < |results| ==> results[j].id != results[k].id) ==>
                        results[k].id in StatusMapOf(results) &&
                        StatusMapOf(results)[results[k].id] == results[k].isOnline
  {
    if results != [] {
      var n := |results| - 1;
      var front := results[..n];
      StatusMapLastWins(front);
      assert forall k :: 0 <= k < n ==> front[k] == results[k];
      var last := results[n];
      assert StatusMapOf(results) == StatusMapOf(front)[last.id := last.isOnline];
      forall id | id in StatusMapOf(results)
        ensures exists k :: 0 <= k < |results| && results[k].id == id
      {
        if id == last.id {
          assert results[n].id == id;
        } else {
          assert id in StatusMapOf(front);
          var k :| 0 <= k < |front| && front[k].id == id;
          assert results[k].id == id;
        }
      }
    }
  }

  /** A notice is considered for an entry only when the previous table has a
      value for its id and that value differs; a first observation never
      counts. */
  predicate IsTransition(previous: map<int, bool>, r: ProbeResult)
  {
    r.id in previous && previous[r.id] != r.isOnline
  }

  /** The notice for one entry: a transition of a device the client knows. */
  function NoticeFor(r: ProbeResult, previous: map<int, bool>, devices: seq<Device>): (n: Option<Notice>)
    ensures n.Some? <==> IsTransition(previous, r) && exists k :: 0 <= k < |devices| && devices[k].id == r.id
    ensures n.Some? ==> (n.value.online == r.isOnline &&
      exists k :: 0 <= k < |devices| && devices[k].id == r.id && devices[k].name == n.value.deviceName &&
                  forall j :: 0 <= j < k ==> devices[j].id != r.id)
  {
    if !IsTransition(previous, r) then None
    else
      match FindFirst(devices, (d: Device) => d.id == r.id)
      case None => None
      case Some(d) => Some(Notice(d.name, r.isOnline))
  }

  /** The notices of a whole reply, in reply order. Every entry is compared with
      the table as it was before the refresh. */
  function Notices(results: seq<ProbeResult>, previous: map<int, bool>, devices: seq<Device>): seq<Notice>
  {
    if results == [] then []
    else
      var front := Notices(results[..|results| - 1], previous, devices);
      match NoticeFor(results[|results| - 1], previous, devices)
      case None => front
      case Some(n) => front + [n]
  }

  /** Every notice stems from a transition of a known device. */
  lemma {:induction false} NoticesAreTransitions(results: seq<ProbeResult>, previous: map<int, bool>, devices: seq<Device>)
    ensures forall n :: n in Notices(results, previous, devices) ==>
      exists k :: 0 <= k < |results| && IsTransition(previous, results[k]) && n.online == results[k].isOnline
  {
    if results != [] {
      var m := |results| - 1;
      NoticesAreTransitions(results[..m], previous, devices);
      assert forall k :: 0 <= k < m ==> results[..m][k] == results[k];
    }
  }

  /** The number of reply entries that give a notice. */
  function CountTransitions(results: seq<ProbeResult>, previous: map<int, bool>, devices: seq<Device>): nat
  {
    if results == [] then 0
    else
      CountTransitions(results[..|results| - 1], previous, devices) +
      (if NoticeFor(results[|results| - 1], previous, devices).Some? then 1 else 0)
  }

  /** Every transition of a known device gives a notice: there are exactly as
      many notices as such entries. */
  lemma {:induction false} NoticesCount(results: seq<ProbeResult>, previous: map<int, bool>, devices: seq<Device>)
    ensures |Notices(results, previous, devices)| == CountTransitions(results, previous, devices)
  {
    if results != [] {
      NoticesCount(results[..|results| - 1], previous, devices);
    }
  }

  /** The notices of a prefix of the reply are a prefix of the reply's notices. */
  lemma {:induction false} NoticesPrefix(results: seq<ProbeResult>, previous: map<int, bool>, devices: seq<Device>, m: int)
    requires 0 <= m <= |results|
    ensures Notices(results[..m], previous, devices) <= Notices(results, previous, devices)
    decreases |results|
  {
    if m == |results| {
      assert results[..m] == results;
    } else {
      var n := |results| - 1;
      NoticesPrefix(results[..n], previous, devices, m);
      assert results[..n][..m] == results[..m];
    }
  }

  /** Every entry that is a transition of a known device contributes its
      notice, placed after the notices of the entries before it. */
  lemma NoticeInPlace(results: seq<ProbeResult>, previous: map<int, bool>, devices: seq<Device>, k: int)
    requires 0 <= k < |results| && NoticeFor(results[k], previous, devices).Some?
    ensures CountTransitions(results[..k], previous, devices) < |Notices(results, previous, devices)|
    ensures Notices(results, previous, devices)[CountTransitions(results[..k], previous, devices)] ==
            NoticeFor(results[k], previous, devices).value
  {
    NoticesPrefix(results, previous, devices, k + 1);
    assert results[..k + 1][..k] == results[..k];
    NoticesCount(results[..k], previous, devices);
  }

  /** Entries whose ids the previous table does not hold give no notice; in
      particular the very first refresh gives none. */
  lemma {:induction false} FirstObservationSilent(results: seq<ProbeResult>, previous: map<int, bool>, devices: seq<Device>)
    requires forall k :: 0 <= k < |results| ==> results[k].id !in previous
    ensures Notices(results, previous, devices) == []
  {
    if results != [] {
      var m := |results| - 1;
      assert forall k :: 0 <= k < m ==> results[..m][k] == results[k];
      FirstObservationSilent(results[..m], previous, devices);
    }
  }

  /** A device seen online before and offline now gives exactly one notice;
      a device seen for the first time gives none. */
  lemma OneOfflineNotice(a: Device, b: Device)
    requires a.id == 1 && b.id == 2
    ensures Notices([ProbeResult(1, false), ProbeResult(2, true)], map[1 := true], [a, b]) ==
            [Notice(a.name, false)]
  {
    var results := [ProbeResult(1, false), ProbeResult(2, true)];
    var previous := map[1 := true];
    assert results[..1] == [ProbeResult(1, false)];
    assert results[..1][..0] == [];
    assert NoticeFor(ProbeResult(2, true), previous, [a, b]) == None;
    assert FindFirst([a, b], (d: Device) => d.id == 1) == Some(a);
    assert NoticeFor(ProbeResult(1, false), previous, [a, b]) == Some(Notice(a.name, false));
    assert Notices(results[..1], previous, [a, b]) == [Notice(a.name, false)];
  }

  /** The online flag a device gets from a status table: its entry, or false. */
  function OnlineIn(statusMap: map<int, bool>, id: int): bool
  {
    if id in statusMap then statusMap[id] else false
  }

  /** `prev.map(d => ({...d, isOnline: statusMap[d.id] ?? false}))`. */
  function MergeOnline(devices: seq<Device>, statusMap: map<int, bool>): (r: seq<Device>)
    ensures |r| == |devices|
    ensures forall i :: 0 <= i < |devices| ==>
      r[i] == devices[i].(isOnline := Some(OnlineIn(statusMap, devices[i].id)))
  {
    if devices == [] then []
    else [devices[0].(isOnline := Some(OnlineIn(statusMap, devices[0].id)))] + MergeOnline(devices[1..], statusMap)
  }

  /** Merging keeps the ids, names, addresses and groups of the list, and
      merging the same table twice changes nothing more. */
  lemma MergeOnlineKeepsList(devices: seq<Device>, statusMap: map<int, bool>)
    ensures forall i :: 0 <= i < |devices| ==>
      var d := MergeOnline(devices, statusMap)[i];
      d.id == devices[i].id && d.name == devices[i].name && d.ip == devices[i].ip &&
      d.mac == devices[i].mac && d.groupName == devices[i].groupName
    ensures MergeOnline(MergeOnline(devices, statusMap), statusMap) == MergeOnline(devices, statusMap)
  {
  }

  /** After a merge a device shows online exactly when the reply's last entry
      for its id said so. */
  lemma MergeShowsLastProbe(devices: seq<Device>, results: seq<ProbeResult>, i: int)
    requires 0 <= i < |devices|
    ensures MergeOnline(devices, StatusMapOf(results))[i].isOnline == Some(true) <==>
      exists k :: 0 <= k < |results| && results[k].id == devices[i].id && results[k].isOnline &&
                  forall j :: k < j < |results| ==> results[j].id != devices[i].id
  {
    StatusMapLastWins(results);
    var id := devices[i].id;
    var m := StatusMapOf(results);
    if id in m {
      var k := LastIndexOf(results, id);
      assert m[results[k].id] == results[k].isOnline;
    }
  }

  /** The index of the last entry with `id`. */
  function LastIndexOf(results: seq<ProbeResult>, id: int): (k: int)
    requires exists k :: 0 <= k < |results| && results[k].id == id
    ensures 0 <= k < |results| && results[k].id == id
    ensures forall j :: k < j < |results| ==> results[j].id != id
  {
    if results[|results| - 1].id == id then |results| - 1
    else
      var front := results[..|results| - 1];
      assert exists k :: 0 <= k < |front| && front[k].id == id by {
        var k :| 0 <= k < |results| && results[k].id == id;
        assert front[k] == results[k];
      }
      var k := LastIndexOf(front, id);
      assert front[k] == results[k];
      k
  }

  /** The `forEach` over the reply: fills the status table and collects the
      notices of the transitions it sees. */
  method BuildStatusMap(results: seq<ProbeResult>, previous: map<int, bool>, devices: seq<Device>)
    returns (statusMap: map<int, bool>, notices: seq<Notice>)
    ensures statusMap == StatusMapOf(results)
    ensures notices == Notices(results, previous, devices)
  {
    statusMap := map[];
    notices := [];
    var i := 0;
    while i < |results|
      invariant 0 <= i <= |results|
      invariant statusMap == StatusMapOf(results[..i])
      invariant notices == Notices(results[..i], previous, devices)
    {
      var r := results[i];
      assert results[..i + 1][..i] == results[..i];
      statusMap := statusMap[r.id := r.isOnline];
      var n := NoticeFor(r, previous, devices);
      if n.Some? {
        notices := notices + [n.value];
      }
      i := i + 1;
    }
    assert results[..i] == results;
  }

  /** The client's state touched by a refresh. */
  class StatusBoard {
    var devices: seq<Device>
    var previousStatuses: map<int, bool>

    constructor (devices: seq<Device>)
      ensures this.devices == devices && previousStatuses == map[]
    {
      this.devices := devices;
      previousStatuses := map[];
    }

    /** `refreshStatuses`. `reply` is the server's answer to the status
        request, or None when the request failed. */
    method RefreshStatuses(reply: Option<seq<ProbeResult>>) returns (notices: seq<Notice>)
      modifies this
      ensures old(devices) == [] || reply.None? ==>
        devices == old(devices) && previousStatuses == old(previousStatuses) && notices == []
      ensures old(devices) != [] && reply.Some? ==>
        previousStatuses == StatusMapOf(reply.value) &&
        devices == MergeOnline(old(devices), previousStatuses) &&
        notices == Notices(reply.value, old(previousStatuses), old(devices))
    {
      notices := [];
      if devices == [] {
        return;
      }
      match reply
      case None =>
      case Some(results) =>
        var statusMap, found := BuildStatusMap(results, previousStatuses, devices);
        notices := found;
        previousStatuses := statusMap;
        devices := MergeOnline(devices, statusMap);
    }
  }

  // ---------------------------------------------------------------------------
  // Grouping

  const DefaultGroup: string := "Geral"

  /** A device's group: its group name when that is not blank after `trim()`,
      otherwise `Geral`. */
  function GroupKey(d: Device): (k: string)
    ensures d.groupName.Some? && (exists i :: 0 <= i < |d.groupName.value| && !IsJsWhiteSpace(d.groupName.value[i])) ==>
      k == d.groupName.value
    ensures (d.groupName.None? || forall i :: 0 <= i < |d.groupName.value| ==> IsJsWhiteSpace(d.groupName.value[i])) ==>
      k == DefaultGroup
  {
    TrimEmptyIff(d.groupName.GetOr(""));
    if d.groupName.Some? && d.groupName.value != "" && Trim(d.groupName.value) != "" then
      d.groupName.value
    else
      DefaultGroup
  }

  /** Reference definition of a group: the devices with that key, in input order. */
  function Filter(devices: seq<Device>, key: string): seq<Device>
  {
    if devices == [] then []
    else
      var last := devices[|devices| - 1];
      Filter(devices[..|devices| - 1], key) + (if GroupKey(last) == key then [last] else [])
  }

  /** A device belongs to the group of its own key and to no other. */
  lemma {:induction false} FilterMembership(devices: seq<Device>, key: string, d: Device)
    ensures d in Filter(devices, key) <==> d in devices && GroupKey(d) == key
  {
    if devices != [] {
      var n := |devices| - 1;
      FilterMembership(devices[..n], key, d);
      assert devices == devices[..n] + [devices[n]];
    }
  }

  /** The sum of the sizes of the groups listed in `keys`. */
  function GroupSizes(devices: seq<Device>, keys: seq<string>): nat
  {
    if keys == [] then 0 else |Filter(devices, keys[0])| + GroupSizes(devices, keys[1..])
  }

  /** How many of `keys` equal `k`. */
  function Occurrences(keys: seq<string>, k: string): nat
  {
    if keys == [] then 0 else (if keys[0] == k then 1 else 0) + Occurrences(keys[1..], k)
  }

  lemma {:induction false} OccursOnce(keys: seq<string>, k: string)
    requires forall a, b :: 0 <= a < b < |keys| ==> keys[a] != keys[b]
    requires k in keys
    ensures Occurrences(keys, k) == 1
  {
    if keys[0] == k {
      OccursNot(keys[1..], k);
    } else {
      OccursOnce(keys[1..], k);
    }
  }

  lemma {:induction false} OccursNot(keys: seq<string>, k: string)
    requires k !in keys
    ensures Occurrences(keys, k) == 0
  {
    if keys != [] {
      OccursNot(keys[1..], k);
    }
  }

  /** Appending a device adds one to exactly the groups whose key it has. */
  lemma {:induction false} GroupSizesAppend(devices: seq<Device>, d: Device, keys: seq<string>)
    ensures GroupSizes(devices + [d], keys) == GroupSizes(devices, keys) + Occurrences(keys, GroupKey(d))
  {
    assert (devices + [d])[..|devices|] == devices;
    if keys != [] {
      GroupSizesAppend(devices, d, keys[1..]);
    }
  }

  /** Groups over distinct keys covering every device hold, together, exactly
      as many devices as the input. */
  lemma {:induction false} GroupSizesTotal(devices: seq<Device>, keys: seq<string>)
    requires forall a, b :: 0 <= a < b < |keys| ==> keys[a] != keys[b]
    requires forall i :: 0 <= i < |devices| ==> GroupKey(devices[i]) in keys
    ensures GroupSizes(devices, keys) == |devices|
  {
    if devices == [] {
      GroupSizesEmpty(keys);
    } else {
      var n := |devices| - 1;
      GroupSizesTotal(devices[..n], keys);
      assert devices == devices[..n] + [devices[n]];
      GroupSizesAppend(devices[..n], devices[n], keys);
      OccursOnce(keys, GroupKey(devices[n]));
    }
  }

  lemma {:induction false} GroupSizesEmpty(keys: seq<string>)
    ensures GroupSizes([], keys) == 0
  {
    if keys != [] {
      GroupSizesEmpty(keys[1..]);
    }
  }

  lemma FilterAppend(devices: seq<Device>, d: Device, key: string)
    ensures Filter(devices + [d], key) == Filter(devices, key) + (if GroupKey(d) == key then [d] else [])
  {
    assert (devices + [d])[..|devices|] == devices;
  }

  /** The properties every plain object inherits from `Object.prototype`
      (ECMAScript section 20.1.3 and Annex B.2.2). On the `{}` accumulator
      such a key reads as a function, or as the prototype for `__proto__`. */
  const InheritedNames: set<string> :=
    {"constructor", "hasOwnProperty", "isPrototypeOf", "propertyIsEnumerable",
     "toLocaleString", "toString", "valueOf", "__proto__", "__defineGetter__",
     "__defineSetter__", "__lookupGetter__", "__lookupSetter__"}

  predicate IsInheritedName(k: string)
  {
    k in InheritedNames
  }

  /** No device of `prefix` has an inherited name as its group key. */
  ghost predicate NoInheritedKey(prefix: seq<Device>)
  {
    forall j :: 0 <= j < |prefix| ==> !IsInheritedName(GroupKey(prefix[j]))
  }

  lemma NoInheritedKeyStep(prefix: seq<Device>, d: Device)
    requires NoInheritedKey(prefix) && !IsInheritedName(GroupKey(d))
    ensures NoInheritedKey(prefix + [d])
  {
  }

  /** The `groupedDevices` reduce: the accumulator maps each key to its
      devices, and `order` is the order in which keys were created. A key
      that names an inherited property is truthy before any group exists, so
      `acc[group].push` is called on a value without `push` and throws a
      TypeError that aborts the render: `ok` is false exactly then. */
  method GroupDevices(devices: seq<Device>) returns (ok: bool, groups: map<string, seq<Device>>, order: seq<string>)
    ensures ok <==> forall i :: 0 <= i < |devices| ==> !IsInheritedName(GroupKey(devices[i]))
    ensures ok ==> forall k :: k in groups <==> k in order
    ensures ok ==> forall a, b :: 0 <= a < b < |order| ==> order[a] != order[b]
    ensures ok ==> forall k :: k in groups <==> exists i :: 0 <= i < |devices| && GroupKey(devices[i]) == k
    ensures ok ==> forall k :: k in groups ==> groups[k] == Filter(devices, k) && groups[k] != []
    ensures ok ==> GroupSizes(devices, order) == |devices|
  {
    ok := true;
    groups := map[];
    order := [];
    var i := 0;
    while i < |devices|
      invariant 0 <= i <= |devices|
      invariant NoInheritedKey(devices[..i])
      invariant forall k :: k in groups <==> k in order
      invariant forall a, b :: 0 <= a < b < |order| ==> order[a] != order[b]
      invariant forall k :: k in groups <==> Filter(devices[..i], k) != []
      invariant forall k :: k in groups ==> groups[k] == Filter(devices[..i], k)
    {
      var d := devices[i];
      var key := GroupKey(d);
      if IsInheritedName(key) {
        ok := false;
        return;
      }
      assert devices[..i + 1] == devices[..i] + [d];
      NoInheritedKeyStep(devices[..i], d);
      forall k ensures Filter(devices[..i + 1], k) == Filter(devices[..i], k) + (if key == k then [d] else []) {
        FilterAppend(devices[..i], d, k);
      }
      if key !in groups {
        groups := groups[key := [d]];
        order := order + [key];
      } else {
        groups := groups[key := groups[key] + [d]];
      }
      i := i + 1;
    }
    assert devices[..i] == devices;
    forall k | k in groups
      ensures exists i :: 0 <= i < |devices| && GroupKey(devices[i]) == k
    {
      var d := Filter(devices, k)[0];
      FilterMembership(devices, k, d);
    }
    forall k | exists i :: 0 <= i < |devices| && GroupKey(devices[i]) == k
      ensures k in groups
    {
      var i :| 0 <= i < |devices| && GroupKey(devices[i]) == k;
      FilterMembership(devices, k, devices[i]);
    }
    GroupSizesTotal(devices, order);
  }

  // ---------------------------------------------------------------------------
  // Timer countdown, password change, theme

  const MinuteMs: int := 60000

  /** `Math.max(0, Math.ceil((expiresAt - now) / 60000))` on whole milliseconds. */
  function RemainingMinutes(expiresAt: int, now: int): (r: nat)
    ensures r == 0 <==> expiresAt <= now
    ensures r > 0 ==> (r - 1) * MinuteMs < expiresAt - now <= r * MinuteMs
  {
    var ceil := (expiresAt - now + MinuteMs - 1) / MinuteMs;
    if ceil < 0 then 0 else ceil
  }

  /** The countdown never goes up as time passes. */
  lemma RemainingNonIncreasing(expiresAt: int, now1: int, now2: int)
    requires now1 <= now2
    ensures RemainingMinutes(expiresAt, now2) <= RemainingMinutes(expiresAt, now1)
  {
  }

  const PasswordMismatch: string := "As senhas não coincidem"

  /** `handleChangePassword`'s check: either the error shown, with no request,
      or the request that carries the new password. */
  datatype PasswordChange = Mismatch(error: string) | Submit(newPassword: string)

  function CheckPasswordChange(newPassword: string, confirmPassword: string): (c: PasswordChange)
    ensures c.Mismatch? <==> newPassword != confirmPassword
    ensures c.Mismatch? ==> c.error == PasswordMismatch
    ensures c.Submit? ==> c.newPassword == newPassword == confirmPassword
  {
    if newPassword != confirmPassword then Mismatch(PasswordMismatch) else Submit(newPassword)
  }

  /** The theme toggle: `dark` becomes `light`, anything else becomes `dark`. */
  function ToggleTheme(theme: string): (t: string)
    ensures t == "dark" || t == "light"
    ensures t == "light" <==> theme == "dark"
  {
    if theme == "dark" then "light" else "dark"
  }

  /** On the two themes the toggle is an involution; any other stored value
      is first normalised to `dark`. */
  lemma ToggleThemeTwice(theme: string)
    ensures theme == "dark" || theme == "light" ==> ToggleTheme(ToggleTheme(theme)) == theme
    ensures theme != "dark" && theme != "light" ==> ToggleTheme(ToggleTheme(theme)) == "light"
  {
  }
}
