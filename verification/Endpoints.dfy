/**
 Snapshots of audio endpoints, the events that lead from one snapshot to the
 next, and what replaying those events gives.
 */
module Endpoints {

  datatype Info = Info(id: string, name: string, inputs: int, outputs: int, sampleRates: seq<int>, default: nat)

  // What a listener can reconstruct of an endpoint.
  datatype Form = Form(inputs: int, outputs: int, sampleRates: seq<int>)

  datatype Event =
    | DeviceAdded(device: Info)
    | DeviceRemoved(device: Info)
    | DefaultChanged(device: Info)
    | FormatChanged(device: Info)

  type Snapshot = seq<Info>

  // -- The order of identifiers -----------------------------------------------------------

  // Byte-wise order of strings.
  predicate Below(a: string, b: string) {
    if b == "" then false
    else if a == "" then true
    else a[0] < b[0] || (a[0] == b[0] && Below(a[1..], b[1..]))
  }

  lemma {:induction false} BelowTotal(a: string, b: string)
    ensures Below(a, b) || a == b || Below(b, a)
    ensures Below(a, b) ==> !Below(b, a) && a != b
  {
    if a != "" && b != "" {
      BelowTotal(a[1..], b[1..]);
      if a[1..] == b[1..] && a[0] == b[0] { HeadTail(a, b); }
    }
  }

  lemma HeadTail(a: string, b: string)
    requires a != "" && b != "" && a[0] == b[0] && a[1..] == b[1..]
    ensures a == b
  {
    assert a == [a[0]] + a[1..] && b == [b[0]] + b[1..];
  }

  lemma {:induction false} BelowTransitive(a: string, b: string, c: string)
    requires Below(a, b) && Below(b, c)
    ensures Below(a, c)
  {
    if a != "" && a[0] == b[0] == c[0] {
      BelowTransitive(a[1..], b[1..], c[1..]);
    }
  }

  ghost predicate Sorted(ids: seq<string>) {
    forall i, j :: 0 <= i < j < |ids| ==> Below(ids[i], ids[j])
  }

  lemma {:induction false} Least(s: set<string>) returns (x: string)
    requires s != {}
    ensures x in s && forall y :: y in s && y != x ==> Below(x, y)
    decreases s
  {
    x :| x in s;
    var rest := s - {x};
    assert forall y :: y in s ==> y in rest || y == x;
    if rest != {} {
      var z := Least(rest);
      BelowTotal(x, z);
      if Below(z, x) {
        x := z;
      } else {
        forall y | y in s && y != x ensures Below(x, y) {
          if y != z { BelowTransitive(x, z, y); }
        }
      }
    }
  }

  // Identifiers in ascending order.
  method SortStrings(s: set<string>) returns (ids: seq<string>)
    ensures Sorted(ids) && forall y :: y in ids <==> y in s
  {
    ids := [];
    var rest := s;
    while rest != {}
      invariant Sorted(ids) && rest <= s
      invariant forall y :: y in ids <==> y in s && y !in rest
      invariant forall i, y :: 0 <= i < |ids| && y in rest ==> Below(ids[i], y)
      decreases rest
    {
      ghost var least := Least(rest);
      var x :| x in rest && forall y :: y in rest && y != x ==> Below(x, y);
      ids, rest := ids + [x], rest - {x};
    }
  }

  // -- Snapshots by identifier ---------------------------------------------------------------

  // Endpoints without an identifier are skipped, and the last of several with the
  // same one counts.
  function MapOf(devices: Snapshot): map<string, Info> {
    if devices == [] then map[] else
      var n := |devices| - 1;
      if devices[n].id == "" then MapOf(devices[..n]) else MapOf(devices[..n])[devices[n].id := devices[n]]
  }

  // Which endpoint an identifier names.
  ghost predicate LastWith(devices: Snapshot, id: string, i: nat) {
    i < |devices| && devices[i].id == id && forall j :: i < j < |devices| ==> devices[j].id != id
  }

  lemma {:induction false} MapOfMeans(devices: Snapshot, id: string)
    ensures id in MapOf(devices) ==> id != "" && exists i: nat :: LastWith(devices, id, i) && devices[i] == MapOf(devices)[id]
    ensures id !in MapOf(devices) && id != "" ==> forall i :: 0 <= i < |devices| ==> devices[i].id != id
  {
    if devices != [] {
      var n := |devices| - 1;
      MapOfMeans(devices[..n], id);
      if devices[n].id == id && id != "" {
        assert LastWith(devices, id, n) && MapOf(devices)[id] == devices[n];
      } else if id in MapOf(devices[..n]) {
        var i: nat :| LastWith(devices[..n], id, i) && devices[..n][i] == MapOf(devices[..n])[id];
        LastStill(devices, id, i);
      }
    }
  }

  lemma LastStill(devices: Snapshot, id: string, i: nat)
    requires devices != [] && devices[|devices| - 1].id != id && LastWith(devices[..|devices| - 1], id, i)
    ensures LastWith(devices, id, i)
  {
    var n := |devices| - 1;
    forall j | i < j < |devices| ensures devices[j].id != id {
      assert j < n ==> devices[..n][j] == devices[j];
    }
  }

  lemma MapOfKeeps(devices: Snapshot, id: string)
    requires id in MapOf(devices)
    ensures id != "" && MapOf(devices)[id].id == id
  {
    MapOfMeans(devices, id);
  }

  method EndpointMap(devices: Snapshot) returns (byID: map<string, Info>)
    ensures byID == MapOf(devices)
  {
    byID := map[];
    for i := 0 to |devices|
      invariant byID == MapOf(devices[..i])
    {
      assert devices[..i + 1][..i] == devices[..i];
      if devices[i].id != "" {
        byID := byID[devices[i].id := devices[i]];
      }
    }
    assert devices[..|devices|] == devices;
  }

  function FormOf(d: Info): Form {
    Form(d.inputs, d.outputs, d.sampleRates)
  }

  // The channel counts or the sample rates differ.
  predicate Reshaped(a: Info, b: Info) {
    a.inputs != b.inputs || a.outputs != b.outputs || a.sampleRates != b.sampleRates
  }

  method EndpointFormatChanged(a: Info, b: Info) returns (r: bool)
    ensures r <==> Reshaped(a, b)
  {
    if a.inputs != b.inputs || a.outputs != b.outputs || |a.sampleRates| != |b.sampleRates| {
      return true;
    }
    for i := 0 to |a.sampleRates|
      invariant a.sampleRates[..i] == b.sampleRates[..i]
    {
      if a.sampleRates[i] != b.sampleRates[i] {
        return true;
      }
    }
    assert a.sampleRates[..|a.sampleRates|] == b.sampleRates[..|b.sampleRates|];
    return false;
  }

  // The first endpoint marked as default for a direction.
  function DefaultFrom(devices: Snapshot, direction: nat, i: nat): string
    requires i <= |devices|
    decreases |devices| - i
  {
    if i == |devices| then ""
    else if devices[i].default == direction then devices[i].id
    else DefaultFrom(devices, direction, i + 1)
  }

  method DefaultID(devices: Snapshot, direction: nat) returns (id: string)
    ensures id == DefaultFrom(devices, direction, 0)
  {
    for i := 0 to |devices|
      invariant DefaultFrom(devices, direction, i) == DefaultFrom(devices, direction, 0)
    {
      if devices[i].default == direction {
        return devices[i].id;
      }
    }
    return "";
  }

  lemma {:induction false} DefaultIsThere(devices: Snapshot, direction: nat, i: nat)
    requires i <= |devices| && DefaultFrom(devices, direction, i) != ""
    ensures DefaultFrom(devices, direction, i) in MapOf(devices)
    decreases |devices| - i
  {
    if devices[i].default == direction {
      MapOfMeans(devices, devices[i].id);
    } else {
      DefaultIsThere(devices, direction, i + 1);
    }
  }

  // -- The events between two snapshots -----------------------------------------------------------

  function Change(was: map<string, Info>, now: map<string, Info>, id: string): seq<Event>
    requires id in was || id in now
  {
    if id !in was then [DeviceAdded(now[id])]
    else if id !in now then [DeviceRemoved(was[id])]
    else if FormOf(was[id]) != FormOf(now[id]) then [FormatChanged(now[id])]
    else []
  }

  ghost predicate Known(was: map<string, Info>, now: map<string, Info>, ids: seq<string>) {
    forall i :: 0 <= i < |ids| ==> ids[i] in was || ids[i] in now
  }

  ghost function Changes(was: map<string, Info>, now: map<string, Info>, ids: seq<string>): seq<Event>
    requires Known(was, now, ids)
  {
    if ids == [] then [] else
      Changes(was, now, ids[..|ids| - 1]) + Change(was, now, ids[|ids| - 1])
  }

  function DefaultChange(previous: Snapshot, current: Snapshot, direction: nat): seq<Event> {
    var oldID, newID := DefaultFrom(previous, direction, 0), DefaultFrom(current, direction, 0);
    if oldID == newID then []
    else if newID in MapOf(current) then [DefaultChanged(MapOf(current)[newID])]
    else if oldID in MapOf(previous) then [DefaultChanged(MapOf(previous)[oldID].(default := 0))]
    else []
  }

  // A change of default is never lost: it is reported exactly when the
  // identifiers differ, by the new default where there is one and else by the old
  // one, no longer marked.
  lemma DefaultReported(previous: Snapshot, current: Snapshot, direction: nat)
    ensures var oldID, newID := DefaultFrom(previous, direction, 0), DefaultFrom(current, direction, 0);
            var events := DefaultChange(previous, current, direction);
            && (events == [] <==> oldID == newID)
            && (oldID != newID && newID != "" ==> events[0].device.id == newID)
            && (oldID != newID && newID == "" ==> events[0].device.id == oldID && events[0].device.default == 0)
  {
    var oldID, newID := DefaultFrom(previous, direction, 0), DefaultFrom(current, direction, 0);
    MapOfMeans(current, "");
    if newID != "" { DefaultIsThere(current, direction, 0); MapOfKeeps(current, newID); }
    if oldID != "" { DefaultIsThere(previous, direction, 0); MapOfKeeps(previous, oldID); }
  }

  ghost predicate IsUnion(ids: seq<string>, was: map<string, Info>, now: map<string, Info>) {
    Sorted(ids) && forall id :: id in ids <==> id in was || id in now
  }

  // The events from one snapshot to the next.
  ghost predicate IsDiff(previous: Snapshot, current: Snapshot, events: seq<Event>) {
    var was, now := MapOf(previous), MapOf(current);
    exists ids :: IsUnion(ids, was, now) && Known(was, now, ids)
                  && events == Changes(was, now, ids)
                               + DefaultChange(previous, current, 1) + DefaultChange(previous, current, 2)
  }

  method DiffEndpointSnapshots(previous: Snapshot, current: Snapshot) returns (events: seq<Event>)
    ensures IsDiff(previous, current, events)
  {
    hide Sorted, DefaultChange, MapOf, FormOf, Change;
    var was := EndpointMap(previous);
    var now := EndpointMap(current);
    var ids := SortStrings(was.Keys + now.Keys);
    UnionOf(ids, was, now);
    events := [];
    for i := 0 to |ids|
      invariant Known(was, now, ids[..i]) && events == Changes(was, now, ids[..i])
    {
      assert ids[..i + 1][..i] == ids[..i];
      var change := ChangeEvents(was, now, ids[i]);
      events := events + change;
    }
    assert ids[..|ids|] == ids;
    var one := DefaultEvents(previous, current, was, now, 1);
    var two := DefaultEvents(previous, current, was, now, 2);
    events := events + one + two;
  }

  method ChangeEvents(was: map<string, Info>, now: map<string, Info>, id: string) returns (events: seq<Event>)
    requires id in was || id in now
    ensures events == Change(was, now, id)
  {
    if id !in was {
      return [DeviceAdded(now[id])];
    }
    if id !in now {
      return [DeviceRemoved(was[id])];
    }
    var changed := EndpointFormatChanged(was[id], now[id]);
    return if changed then [FormatChanged(now[id])] else [];
  }

  lemma UnionOf(ids: seq<string>, was: map<string, Info>, now: map<string, Info>)
    requires Sorted(ids) && forall y :: y in ids <==> y in was.Keys + now.Keys
    ensures IsUnion(ids, was, now) && Known(was, now, ids)
  {
    assert forall i :: 0 <= i < |ids| ==> ids[i] in ids;
  }

  method DefaultEvents(
    previous: Snapshot, current: Snapshot, was: map<string, Info>, now: map<string, Info>, direction: nat)
    returns (events: seq<Event>)
    requires was == MapOf(previous) && now == MapOf(current)
    ensures events == DefaultChange(previous, current, direction)
  {
    var oldID := DefaultID(previous, direction);
    var newID := DefaultID(current, direction);
    if oldID == newID {
      return [];
    }
    if newID in now {
      MapOfKeeps(current, newID);
      return [DefaultChanged(now[newID])];
    }
    if oldID in was {
      MapOfKeeps(previous, oldID);
      return [DefaultChanged(was[oldID].(default := 0))];
    }
    return [];
  }

  // -- Replaying ---------------------------------------------------------------------------------

  function Forms(devices: Snapshot): map<string, Form> {
    var m := MapOf(devices);
    map id | id in m :: FormOf(m[id])
  }

  // What a listener does with one event.
  function Listen(m: map<string, Form>, e: Event): map<string, Form> {
    match e
    case DeviceAdded(d) => m[d.id := FormOf(d)]
    case DeviceRemoved(d) => map id | id in m && id != d.id :: m[id]
    case FormatChanged(d) => m[d.id := FormOf(d)]
    case DefaultChanged(_) => m
  }

  function Replay(m: map<string, Form>, events: seq<Event>): map<string, Form> {
    if events == [] then m else Listen(Replay(m, events[..|events| - 1]), events[|events| - 1])
  }

  lemma {:induction false} ReplaySplit(m: map<string, Form>, a: seq<Event>, b: seq<Event>)
    ensures Replay(m, a + b) == Replay(Replay(m, a), b)
    decreases |b|
  {
    if b == [] {
      assert a + b == a;
    } else {
      var n := |b| - 1;
      assert (a + b)[..|a + b| - 1] == a + b[..n];
      ReplaySplit(m, a, b[..n]);
    }
  }

  // m has the new forms of the listed identifiers and the old forms of the rest.
  ghost predicate Between(
    m: map<string, Form>, was: map<string, Info>, now: map<string, Info>, ids: seq<string>)
  {
    forall id ::
      && (id in m <==> if id in ids then id in now else id in was)
      && (id in m ==> m[id] == FormOf(if id in ids then now[id] else was[id]))
  }

  lemma {:induction false} ReplayChanges(previous: Snapshot, current: Snapshot, ids: seq<string>)
    requires Sorted(ids) && Known(MapOf(previous), MapOf(current), ids)
    ensures Between(Replay(Forms(previous), Changes(MapOf(previous), MapOf(current), ids)),
                    MapOf(previous), MapOf(current), ids)
    decreases |ids|
  {
    hide MapOf;
    if ids != [] {
      var n, was, now := |ids| - 1, MapOf(previous), MapOf(current);
      ReplayChanges(previous, current, ids[..n]);
      var before := Changes(was, now, ids[..n]);
      ReplaySplit(Forms(previous), before, Change(was, now, ids[n]));
      OneChange(previous, current, ids, Replay(Forms(previous), before));
    }
  }

  lemma OneChange(previous: Snapshot, current: Snapshot, ids: seq<string>, m: map<string, Form>)
    requires Sorted(ids) && Known(MapOf(previous), MapOf(current), ids) && ids != []
    requires Between(m, MapOf(previous), MapOf(current), ids[..|ids| - 1])
    ensures Between(Replay(m, Change(MapOf(previous), MapOf(current), ids[|ids| - 1])),
                    MapOf(previous), MapOf(current), ids)
  {
    hide MapOf;
    var n, was, now := |ids| - 1, MapOf(previous), MapOf(current);
    var id := ids[n];
    if id in was { MapOfKeeps(previous, id); }
    if id in now { MapOfKeeps(current, id); }
    if id in ids[..n] {
      var i :| 0 <= i < n && ids[i] == id;
      BelowTotal(id, id);
    }
    assert forall x :: x in ids <==> x in ids[..n] || x == id;
    var change := Change(was, now, id);
    if change != [] {
      assert change[..|change| - 1] == [];
      assert Replay(m, change) == Listen(m, change[0]);
    }
  }

  // Replaying the diff over the listener's picture of the previous snapshot gives
  // the picture of the current one.
  lemma DiffReplays(previous: Snapshot, current: Snapshot, events: seq<Event>)
    requires IsDiff(previous, current, events)
    ensures Replay(Forms(previous), events) == Forms(current)
    ensures var m, now := Replay(Forms(previous), events), MapOf(current);
            forall id :: (id in m <==> id in now)
                         && (id in m ==> m[id].inputs == now[id].inputs && m[id].outputs == now[id].outputs
                                         && m[id].sampleRates == now[id].sampleRates)
  {
    hide MapOf, Replay, Changes, DefaultChange;
    var was, now := MapOf(previous), MapOf(current);
    var ids :| IsUnion(ids, was, now) && Known(was, now, ids)
               && events == Changes(was, now, ids)
                            + DefaultChange(previous, current, 1) + DefaultChange(previous, current, 2);
    var changes := Changes(was, now, ids);
    var m := Replay(Forms(previous), changes);
    ReplayChanges(previous, current, ids);
    ReplaySplit(Forms(previous), changes, DefaultChange(previous, current, 1));
    ReplaySplit(Forms(previous), changes + DefaultChange(previous, current, 1), DefaultChange(previous, current, 2));
    DefaultsSilent(previous, current, 1, m);
    DefaultsSilent(previous, current, 2, m);
    assert m == Forms(current);
  }

  lemma DefaultsSilent(previous: Snapshot, current: Snapshot, direction: nat, m: map<string, Form>)
    ensures Replay(m, DefaultChange(previous, current, direction)) == m
  {
    var events := DefaultChange(previous, current, direction);
    if events != [] {
      assert events[..|events| - 1] == [];
    }
  }

  // Only what changed is reported, once: an add, remove or format event of the
  // diff is about an identifier that appeared, vanished or changed form, and every
  // such identifier has its event.
  ghost predicate Reports(was: map<string, Info>, now: map<string, Info>, e: Event) {
    match e
    case DeviceAdded(d) => d.id !in was && d.id in now && d == now[d.id]
    case DeviceRemoved(d) => d.id in was && d.id !in now && d == was[d.id]
    case FormatChanged(d) => d.id in was && d.id in now && d == now[d.id] && Reshaped(was[d.id], d)
    case DefaultChanged(_) => false
  }

  lemma {:induction false} ChangesExact(previous: Snapshot, current: Snapshot, ids: seq<string>, e: Event)
    requires Known(MapOf(previous), MapOf(current), ids)
    ensures var was, now := MapOf(previous), MapOf(current);
            e in Changes(was, now, ids) <==> Reports(was, now, e) && e.device.id in ids
    decreases |ids|
  {
    hide MapOf;
    if ids != [] {
      var n, was, now := |ids| - 1, MapOf(previous), MapOf(current);
      ChangesExact(previous, current, ids[..n], e);
      if ids[n] in was { MapOfKeeps(previous, ids[n]); }
      if ids[n] in now { MapOfKeeps(current, ids[n]); }
      assert e.device.id in ids <==> e.device.id in ids[..n] || e.device.id == ids[n];
    }
  }
}
