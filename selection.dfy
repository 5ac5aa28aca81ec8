/**
 * The push-selection logic of the device page (frontend/app/page.tsx): the
 * list of selected device addresses, toggling one, selecting all or none,
 * the state of the select-all box, and the payload of a push request.
 */
module Selection {

  /** A discovered device as the page holds it. */
  datatype Device = Device(ip: string, name: string)

  /** One element of the push request body: `{ip, magewell_id}`. */
  datatype PushTarget = PushTarget(ip: string, magewellId: string)

  predicate NoDup(s: seq<string>)
  {
    forall i, j :: 0 <= i < j < |s| ==> s[i] != s[j]
  }

  /** `devices.map(d => d.ip)`. */
  function Ips(devices: seq<Device>): (ips: seq<string>)
    ensures |ips| == |devices|
    ensures forall i :: 0 <= i < |devices| ==> ips[i] == devices[i].ip
  {
    seq(|devices|, i requires 0 <= i < |devices| => devices[i].ip)
  }

  /** `s.filter(x => x !== ip)`. */
  function Filter(s: seq<string>, ip: string): (r: seq<string>)
    ensures |r| <= |s|
    ensures forall x :: x in r <==> x in s && x != ip
    decreases |s|
  {
    if s == [] then []
    else (if s[0] == ip then [] else [s[0]]) + Filter(s[1..], ip)
  }

  /** Filtering a list that lacks `ip` changes nothing. */
  lemma {:induction false} FilterAbsent(s: seq<string>, ip: string)
    requires ip !in s
    ensures Filter(s, ip) == s
    decreases |s|
  {
    if s != [] {
      FilterAbsent(s[1..], ip);
      assert [s[0]] + s[1..] == s;
    }
  }

  lemma {:induction false} FilterAppend(a: seq<string>, b: seq<string>, ip: string)
    ensures Filter(a + b, ip) == Filter(a, ip) + Filter(b, ip)
    decreases |a|
  {
    if a == [] {
      assert a + b == b;
    } else {
      assert (a + b)[0] == a[0] && (a + b)[1..] == a[1..] + b;
      FilterAppend(a[1..], b, ip);
    }
  }

  /**
   * Filtering keeps every other element where it stands relative to the
   * rest: an element other than `ip` stays between the filtered parts
   * before and after it, and `ip` itself disappears from between them.
   */
  lemma FilterKeepsOrder(a: seq<string>, x: string, b: seq<string>, ip: string)
    ensures x != ip ==> Filter(a + [x] + b, ip) == Filter(a, ip) + [x] + Filter(b, ip)
    ensures x == ip ==> Filter(a + [x] + b, ip) == Filter(a, ip) + Filter(b, ip)
  {
    FilterSingle(x, ip);
    FilterAppend(a, [x], ip);
    FilterAppend(a + [x], b, ip);
  }

  lemma FilterSingle(x: string, ip: string)
    ensures Filter([x], ip) == if x == ip then [] else [x]
  {
    assert [x][1..] == [];
  }

  /** Filtering removes every occurrence of `ip` and nothing else. */
  lemma {:induction false} FilterMultiset(s: seq<string>, ip: string)
    ensures multiset(Filter(s, ip)) == multiset(s)[ip := 0]
    decreases |s|
  {
    if s != [] {
      FilterMultiset(s[1..], ip);
      assert s == [s[0]] + s[1..];
    }
  }

  /** In a duplicate-free list a present element occurs once. */
  lemma {:induction false} NoDupOnce(s: seq<string>, ip: string)
    requires NoDup(s) && ip in s
    ensures multiset(s)[ip] == 1
    decreases |s|
  {
    assert s == [s[0]] + s[1..];
    var t := s[1..];
    assert NoDup(t) by {
      forall i, j | 0 <= i < j < |t| ensures t[i] != t[j] {
        assert t[i] == s[i + 1] && t[j] == s[j + 1];
      }
    }
    if s[0] == ip {
      assert ip !in t;
    } else {
      NoDupOnce(t, ip);
    }
  }

  /** Filtering keeps a duplicate-free list duplicate-free. */
  lemma {:induction false} FilterNoDup(s: seq<string>, ip: string)
    requires NoDup(s)
    ensures NoDup(Filter(s, ip))
    decreases |s|
  {
    if s != [] {
      var rest := Filter(s[1..], ip);
      FilterNoDup(s[1..], ip);
      var head := if s[0] == ip then [] else [s[0]];
      var r := head + rest;
      forall i, j | 0 <= i < j < |r|
        ensures r[i] != r[j]
      {
        assert r[j] == rest[j - |head|] && rest[j - |head|] in rest;
        if i < |head| {
          assert s[0] !in s[1..];
        } else {
          assert r[i] == rest[i - |head|];
        }
      }
    }
  }

  /**
   * `handleSelectToggle`: a selected address is removed (every occurrence);
   * any other address is appended at the end.
   */
  function Toggle(selected: seq<string>, ip: string): (r: seq<string>)
    ensures ip in r <==> ip !in selected
    ensures forall x :: x != ip ==> (x in r <==> x in selected)
    ensures ip !in selected ==> r == selected + [ip]
  {
    if ip in selected then Filter(selected, ip) else selected + [ip]
  }

  /** Toggling keeps the selection free of duplicates. */
  lemma ToggleNoDup(selected: seq<string>, ip: string)
    requires NoDup(selected)
    ensures NoDup(Toggle(selected, ip))
  {
    if ip in selected {
      FilterNoDup(selected, ip);
    }
  }

  /**
   * Toggling twice restores the selection exactly when the address was not
   * selected; when it was, the address comes back at the end, so the
   * selection is restored up to order.
   */
  lemma ToggleTwice(selected: seq<string>, ip: string)
    requires NoDup(selected)
    ensures ip !in selected ==> Toggle(Toggle(selected, ip), ip) == selected
    ensures ip in selected ==> Toggle(Toggle(selected, ip), ip) == Filter(selected, ip) + [ip]
    ensures multiset(Toggle(Toggle(selected, ip), ip)) == multiset(selected)
  {
    if ip !in selected {
      ToggleTwiceAbsent(selected, ip);
    } else {
      ToggleTwicePresent(selected, ip);
    }
  }

  lemma ToggleTwiceAbsent(selected: seq<string>, ip: string)
    requires ip !in selected
    ensures Toggle(Toggle(selected, ip), ip) == selected
  {
    assert Toggle(selected, ip) == selected + [ip];
    FilterAppend(selected, [ip], ip);
    FilterAbsent(selected, ip);
    FilterSingle(ip, ip);
  }

  lemma ToggleTwicePresent(selected: seq<string>, ip: string)
    requires NoDup(selected) && ip in selected
    ensures Toggle(Toggle(selected, ip), ip) == Filter(selected, ip) + [ip]
    ensures multiset(Filter(selected, ip) + [ip]) == multiset(selected)
  {
    var t := Filter(selected, ip);
    assert Toggle(selected, ip) == t;
    assert ip !in t;
    FilterMultiset(selected, ip);
    NoDupOnce(selected, ip);
    assert multiset(t + [ip]) == multiset(t) + multiset{ip};
  }

  /** `handleSelectAllToggle`: every device address in device order when checked, none otherwise. */
  function SelectAll(devices: seq<Device>, checked: bool): (r: seq<string>)
    ensures checked ==> r == Ips(devices)
    ensures !checked ==> r == []
  {
    if checked then Ips(devices) else []
  }

  /** The select-all box is checked when the selection is as long as the device list, and that is not empty. */
  predicate SelectAllChecked(selected: seq<string>, devices: seq<Device>)
  {
    |selected| == |devices| && |devices| > 0
  }

  /** `devices.filter(d => selected.includes(d.ip)).map(d => {ip, magewell_id: d.name})`. */
  function Payload(devices: seq<Device>, selected: seq<string>): (p: seq<PushTarget>)
    ensures |p| <= |devices|
    decreases |devices|
  {
    if devices == [] then []
    else
      (if devices[0].ip in selected then [PushTarget(devices[0].ip, devices[0].name)] else []) +
      Payload(devices[1..], selected)
  }

  /** A push target is sent for a device exactly when its address is selected. */
  lemma {:induction false} PayloadMembers(devices: seq<Device>, selected: seq<string>, d: Device)
    requires d in devices
    ensures PushTarget(d.ip, d.name) in Payload(devices, selected) <==> d.ip in selected
    decreases |devices|
  {
    if devices[0] != d {
      PayloadMembers(devices[1..], selected, d);
    } else if d.ip !in selected && d in devices[1..] {
      PayloadMembers(devices[1..], selected, d);
    } else if d.ip !in selected {
      PayloadOnlySelected(devices[1..], selected);
    }
  }

  /** Every push target is a selected device. */
  lemma {:induction false} PayloadOnlySelected(devices: seq<Device>, selected: seq<string>)
    ensures forall t :: t in Payload(devices, selected) ==>
      t.ip in selected && Device(t.ip, t.magewellId) in devices
    decreases |devices|
  {
    if devices != [] {
      PayloadOnlySelected(devices[1..], selected);
    }
  }

  /** The payload follows device order: filtering distributes over concatenation. */
  lemma {:induction false} PayloadAppend(a: seq<Device>, b: seq<Device>, selected: seq<string>)
    ensures Payload(a + b, selected) == Payload(a, selected) + Payload(b, selected)
    decreases |a|
  {
    if a == [] {
      assert a + b == b;
    } else {
      assert (a + b)[0] == a[0] && (a + b)[1..] == a[1..] + b;
      PayloadAppend(a[1..], b, selected);
      var head := if a[0].ip in selected then [PushTarget(a[0].ip, a[0].name)] else [];
      assert Payload(a + b, selected) == head + Payload(a[1..] + b, selected);
      assert Payload(a, selected) == head + Payload(a[1..], selected);
    }
  }

  /** With everything selected, every device is pushed, in device order. */
  lemma {:induction false} PayloadSelectAll(devices: seq<Device>, selected: seq<string>)
    requires forall i :: 0 <= i < |devices| ==> devices[i].ip in selected
    ensures |Payload(devices, selected)| == |devices|
    ensures forall i :: 0 <= i < |devices| ==>
      Payload(devices, selected)[i] == PushTarget(devices[i].ip, devices[i].name)
    decreases |devices|
  {
    if devices != [] {
      PayloadSelectAll(devices[1..], selected);
    }
  }

  /** What pressing "push updates" does: refuse an empty selection, or send the payload. */
  datatype PushAction = NothingSelected(message: string) | SendPush(payload: seq<PushTarget>)

  /** `pushUpdates`, up to the request itself. */
  function PushUpdates(devices: seq<Device>, selected: seq<string>): (a: PushAction)
    ensures selected == [] <==> a.NothingSelected?
    ensures a.NothingSelected? ==> a.message == "No devices selected for push updates."
    ensures a.SendPush? ==> a.payload == Payload(devices, selected)
  {
    if |selected| == 0 then NothingSelected("No devices selected for push updates.")
    else SendPush(Payload(devices, selected))
  }

  // ---- Page state ----

  /** The part of the page's state the selection logic reads and writes. */
  datatype PageState = PageState(devices: seq<Device>, selected: seq<string>)

  /** The selection names distinct addresses of listed devices. */
  predicate ValidPage(st: PageState)
  {
    NoDup(st.selected) && forall x :: x in st.selected ==> x in Ips(st.devices)
  }

  /** A scan result replaces the device list and clears the selection. */
  function OnScanResult(st: PageState, found: seq<Device>): (st': PageState)
    ensures st'.devices == found && st'.selected == []
  {
    PageState(found, [])
  }

  /** Submitting a new subnet clears both the device list and the selection. */
  function OnSubmit(st: PageState): (st': PageState)
    ensures st'.devices == [] && st'.selected == []
  {
    PageState([], [])
  }

  /** A device card's checkbox toggles that device's address. */
  function OnToggle(st: PageState, device: Device): (st': PageState)
    ensures st'.devices == st.devices
    ensures device.ip in st'.selected <==> device.ip !in st.selected
  {
    PageState(st.devices, Toggle(st.selected, device.ip))
  }

  /** The select-all checkbox. */
  function OnSelectAll(st: PageState, checked: bool): (st': PageState)
    ensures st'.devices == st.devices
    ensures checked ==> |st'.selected| == |st.devices|
    ensures checked ==> forall i :: 0 <= i < |st.devices| ==> st'.selected[i] == st.devices[i].ip
    ensures !checked ==> st'.selected == []
  {
    PageState(st.devices, SelectAll(st.devices, checked))
  }

  /** Every page event keeps the selection valid, given distinct device addresses. */
  lemma EventsKeepValid(st: PageState, found: seq<Device>, device: Device, checked: bool)
    requires ValidPage(st)
    requires device in st.devices
    requires NoDup(Ips(st.devices))
    ensures ValidPage(OnScanResult(st, found))
    ensures ValidPage(OnSubmit(st))
    ensures ValidPage(OnToggle(st, device))
    ensures ValidPage(OnSelectAll(st, checked))
  {
    ToggleNoDup(st.selected, device.ip);
    var i :| 0 <= i < |st.devices| && st.devices[i] == device;
    assert Ips(st.devices)[i] == device.ip;
  }

  lemma {:induction false} NoDupCard(s: seq<string>)
    requires NoDup(s)
    ensures |set x | x in s| == |s|
    decreases |s|
  {
    if s != [] {
      var t := s[1..];
      assert NoDup(t) by {
        forall i, j | 0 <= i < j < |t| ensures t[i] != t[j] {
          assert t[i] == s[i + 1] && t[j] == s[j + 1];
        }
      }
      NoDupCard(t);
      assert s[0] !in t;
      assert (set x | x in s) == {s[0]} + (set x | x in t);
    }
  }

  /** A subset as large as its superset is the superset. */
  lemma SubsetCard(a: set<string>, b: set<string>)
    requires a <= b && |a| == |b|
    ensures a == b
  {
    assert b == a + (b - a);
    assert a * (b - a) == {};
    assert |b - a| == 0;
  }

  /**
   * On a valid page with distinct device addresses, the select-all box is
   * checked exactly when every device is selected and there is at least one.
   */
  lemma SelectAllCheckedMeaning(st: PageState)
    requires ValidPage(st) && NoDup(Ips(st.devices))
    ensures SelectAllChecked(st.selected, st.devices) <==>
      |st.devices| > 0 && forall i :: 0 <= i < |st.devices| ==> st.devices[i].ip in st.selected
  {
    var sel := set x | x in st.selected;
    var all := set x | x in Ips(st.devices);
    NoDupCard(st.selected);
    NoDupCard(Ips(st.devices));
    assert sel <= all;
    if SelectAllChecked(st.selected, st.devices) {
      SubsetCard(sel, all);
      forall i | 0 <= i < |st.devices|
        ensures st.devices[i].ip in st.selected
      {
        assert Ips(st.devices)[i] in all;
      }
    }
    if |st.devices| > 0 && forall i :: 0 <= i < |st.devices| ==> st.devices[i].ip in st.selected {
      assert all <= sel by {
        forall x | x in all ensures x in sel {
          var i :| 0 <= i < |st.devices| && Ips(st.devices)[i] == x;
        }
      }
      assert sel == all;
    }
  }
}
