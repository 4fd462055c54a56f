/**
 * KVM: the coordinator. It watches one trigger USB device; when the trigger
 * appears it works out which displays show an input other than the one
 * wanted, asks the cluster to switch them and waits for confirmation; when
 * the trigger goes away it becomes inactive. Peers' requests are applied to
 * the local displays. The list of live displays is a snapshot taken from the
 * platform layer, so every operation that lists displays takes it as a
 * parameter.
 */
module Kvm {
  import opened Bytes
  import opened Results
  import opened Displays
  import opened DisplayMaps
  import opened Listeners
  import opened Usb
  import opened Messages
  import Clusters
  import Sockets

  /** KVM::State. */
  datatype State = Inactive | RequestingInput | Active

  /** The callbacks of KVM::Listener, one constructor each. */
  datatype KvmEvent =
    | StateChanged(from: State, to: State)
    | TriggerDeviceConnected(device: UsbDevice)
    | DisplayInputChangesRequested(changes: DisplayMap)
    | NodeConnected(node: Clusters.NodeIndex)
    | NodeDisconnected(node: Clusters.NodeIndex)

  // ---------------------------------------------------------------------
  // Comparing the desired inputs with the live displays.

  /** Some live display with the entry's key reports an input other than the entry's. */
  predicate Mismatched(displays: seq<Display>, e: Entry)
  {
    exists i :: 0 <= i < |displays| && displays[i].id == e.key && displays[i].input != e.value
  }

  /** Reference: the desired entries some live display disagrees with, in key order. */
  function Mismatches(desired: DisplayMap, displays: seq<Display>): (r: DisplayMap)
    ensures forall i :: 0 <= i < |r| ==> r[i] in desired && Mismatched(displays, r[i])
    ensures forall i :: 0 <= i < |desired| && Mismatched(displays, desired[i]) ==> desired[i] in r
  {
    if desired == [] then []
    else
      var init := desired[..|desired| - 1];
      var last := desired[|desired| - 1];
      assert forall i :: 0 <= i < |init| ==> init[i] == desired[i];
      var p := Mismatches(init, displays);
      if Mismatched(displays, last) then p + [last] else p
  }

  /**
   * The inner loop of the change computation for one desired entry:
   * `changes[display] = input` for every live display with that key whose
   * input differs.
   */
  function Mark(changes: DisplayMap, e: Entry, displays: seq<Display>): (r: DisplayMap)
    requires Ascending(changes)
    ensures Ascending(r)
  {
    if displays == [] then changes
    else
      var p := Mark(changes, e, displays[..|displays| - 1]);
      var d := displays[|displays| - 1];
      if d.id == e.key && d.input != e.value then Put(p, d.id, e.value) else p
  }

  /** The change map OnDeviceConnected builds: Mark for every desired entry, in key order. */
  function Changes(desired: DisplayMap, displays: seq<Display>): (r: DisplayMap)
    ensures Ascending(r)
  {
    if desired == [] then []
    else Mark(Changes(desired[..|desired| - 1], displays), desired[|desired| - 1], displays)
  }

  /** Marking an entry whose key is beyond every key so far appends it once, exactly when some display disagrees. */
  lemma {:induction false} MarkAppends(changes: DisplayMap, e: Entry, displays: seq<Display>)
    requires Ascending(changes)
    requires forall i :: 0 <= i < |changes| ==> Less(changes[i].key, e.key)
    ensures Mark(changes, e, displays) == if Mismatched(displays, e) then changes + [e] else changes
  {
    if displays != [] {
      var init := displays[..|displays| - 1];
      var d := displays[|displays| - 1];
      MarkAppends(changes, e, init);
      assert forall i :: 0 <= i < |init| ==> init[i] == displays[i];
      var p := Mark(changes, e, init);
      if d.id == e.key && d.input != e.value {
        assert Mismatched(displays, e) by {
          assert displays[|displays| - 1] == d;
        }
        if p == changes {
          PutGreatestAppends(changes, e.key, e.value);
        } else {
          assert Ascending(changes + [e]) by {
            forall i, j | 0 <= i < j < |changes + [e]| ensures Less((changes + [e])[i].key, (changes + [e])[j].key) {
              if j < |changes| {
                assert (changes + [e])[i] == changes[i] && (changes + [e])[j] == changes[j];
              } else {
                assert (changes + [e])[i] == changes[i];
              }
            }
          }
          PutLastAgain(changes, e);
        }
      } else {
        assert Mismatched(displays, e) <==> Mismatched(init, e) by {
          if Mismatched(displays, e) {
            var i :| 0 <= i < |displays| && displays[i].id == e.key && displays[i].input != e.value;
            assert i < |init|;
            assert init[i] == displays[i];
          }
        }
      }
    }
  }

  /**
   * The change map is exactly the reference: the desired entries, in key
   * order, that some live display disagrees with.
   */
  lemma {:induction false} ChangesAreMismatches(desired: DisplayMap, displays: seq<Display>)
    requires Ascending(desired)
    ensures Changes(desired, displays) == Mismatches(desired, displays)
  {
    if desired != [] {
      var init := desired[..|desired| - 1];
      var last := desired[|desired| - 1];
      assert forall i :: 0 <= i < |init| ==> init[i] == desired[i];
      ChangesAreMismatches(init, displays);
      var p := Mismatches(init, displays);
      assert forall i :: 0 <= i < |p| ==> Less(p[i].key, last.key) by {
        forall i | 0 <= i < |p| ensures Less(p[i].key, last.key) {
          var j :| 0 <= j < |init| && init[j] == p[i];
          assert desired[j] == p[i];
        }
      }
      MarkAppends(p, last, displays);
    }
  }

  /** The displays one desired entry flags as on the wrong input, in list order. */
  function WrongInputs(e: Entry, displays: seq<Display>): (r: seq<Display>)
    ensures forall i :: 0 <= i < |r| ==> r[i] in displays && r[i].id == e.key && r[i].input != e.value
    ensures |r| == 0 <==> !Mismatched(displays, e)
  {
    if displays == [] then []
    else
      var init := displays[..|displays| - 1];
      var d := displays[|displays| - 1];
      var p := WrongInputs(e, init);
      assert forall i :: 0 <= i < |init| ==> init[i] == displays[i];
      assert Mismatched(displays, e) <==> Mismatched(init, e) || (d.id == e.key && d.input != e.value) by {
        if Mismatched(displays, e) && !(d.id == e.key && d.input != e.value) {
          var i :| 0 <= i < |displays| && displays[i].id == e.key && displays[i].input != e.value;
          assert i < |init|;
        }
        if Mismatched(init, e) {
          var i :| 0 <= i < |init| && init[i].id == e.key && init[i].input != e.value;
          assert displays[i] == init[i];
        }
      }
      if d.id == e.key && d.input != e.value then p + [d] else p
  }

  /** ListDisplaysWithNonPreferredInput: for each desired entry in key order, the displays on the wrong input. */
  function NonPreferred(desired: DisplayMap, displays: seq<Display>): (r: seq<Display>)
    ensures forall i :: 0 <= i < |r| ==> r[i] in displays && exists e :: e in desired && r[i].id == e.key && r[i].input != e.value
  {
    if desired == [] then []
    else
      var init := desired[..|desired| - 1];
      var last := desired[|desired| - 1];
      var p := NonPreferred(init, displays);
      var q := WrongInputs(last, displays);
      assert forall i :: 0 <= i < |init| ==> init[i] in desired;
      assert forall i :: 0 <= i < |q| ==> q[i].id == last.key && q[i].input != last.value;
      p + q
  }

  /** No display is on a non-preferred input exactly when there is nothing to change. */
  lemma {:induction false} NonPreferredEmptyIffNothingToChange(desired: DisplayMap, displays: seq<Display>)
    ensures |NonPreferred(desired, displays)| == 0 <==> |Mismatches(desired, displays)| == 0
  {
    if desired != [] {
      NonPreferredEmptyIffNothingToChange(desired[..|desired| - 1], displays);
    }
  }

  /** A display is listed exactly when it is live and the desired map wants it on another input. */
  lemma {:induction false} NonPreferredListsWrongDisplays(desired: DisplayMap, displays: seq<Display>, d: Display)
    requires Ascending(desired)
    requires d in displays
    ensures d in NonPreferred(desired, displays) <==> Lookup(desired, d.id).Some? && Lookup(desired, d.id).value != d.input
  {
    if desired != [] {
      var init := desired[..|desired| - 1];
      var last := desired[|desired| - 1];
      assert Ascending(init) by {
        forall i, j | 0 <= i < j < |init| ensures Less(init[i].key, init[j].key) {
          assert init[i] == desired[i] && init[j] == desired[j];
        }
      }
      NonPreferredListsWrongDisplays(init, displays, d);
      WrongInputsLists(last, displays, d);
      LookupSnoc(desired, d.id);
    }
  }

  /** A live display is flagged by an entry exactly when it has that key and another input. */
  lemma {:induction false} WrongInputsLists(e: Entry, displays: seq<Display>, d: Display)
    requires d in displays
    ensures d in WrongInputs(e, displays) <==> d.id == e.key && d.input != e.value
  {
    var init := displays[..|displays| - 1];
    var last := displays[|displays| - 1];
    assert displays == init + [last];
    if d in init {
      WrongInputsLists(e, init, d);
    }
  }

  /** Looking up in an ascending map split before its last entry. */
  lemma LookupSnoc(m: DisplayMap, k: DisplayId)
    requires Ascending(m) && m != []
    ensures var init := m[..|m| - 1];
      Lookup(m, k) == if m[|m| - 1].key == k then Some(m[|m| - 1].value) else Lookup(init, k)
  {
    var init := m[..|m| - 1];
    var last := m[|m| - 1];
    assert Ascending(init) by {
      forall i, j | 0 <= i < j < |init| ensures Less(init[i].key, init[j].key) {
        assert init[i] == m[i] && init[j] == m[j];
      }
    }
    assert m == init + [last];
    assert forall i :: 0 <= i < |init| ==> Less(init[i].key, last.key) by {
      forall i | 0 <= i < |init| ensures Less(init[i].key, last.key) {
        assert init[i] == m[i];
      }
    }
    PutGreatestAppends(init, last.key, last.value);
    LookupPut(init, last.key, last.value, k);
  }

  // ---------------------------------------------------------------------
  // Requests from peers.

  /** One call of Display::SetInput: which display, which input. */
  datatype InputSet = InputSet(display: Display, input: Input)

  /** The inner loop for one requested change: SetInput on every live display with that key. */
  function SetInputsFor(e: Entry, displays: seq<Display>): (r: seq<InputSet>)
    ensures forall i :: 0 <= i < |r| ==> r[i].display in displays && r[i].display.id == e.key && r[i].input == e.value
    ensures forall d :: d in displays && d.id == e.key ==> InputSet(d, e.value) in r
  {
    if displays == [] then []
    else
      var init := displays[..|displays| - 1];
      var d := displays[|displays| - 1];
      assert displays == init + [d];
      var p := SetInputsFor(e, init);
      if d.id == e.key then p + [InputSet(d, e.value)] else p
  }

  /** OnInputChangeRequested: for each change in key order, SetInput on the matching live displays. */
  function SetInputs(changes: DisplayMap, displays: seq<Display>): (r: seq<InputSet>)
    ensures forall i :: 0 <= i < |r| ==> r[i].display in displays && Entry(r[i].display.id, r[i].input) in changes
    ensures forall e, d :: e in changes && d in displays && d.id == e.key ==> InputSet(d, e.value) in r
  {
    if changes == [] then []
    else
      var init := changes[..|changes| - 1];
      var last := changes[|changes| - 1];
      assert changes == init + [last];
      SetInputs(init, displays) + SetInputsFor(last, displays)
  }

  /** One more display in the inner loop of OnInputChangeRequested. */
  lemma SetInputsForStep(e: Entry, displays: seq<Display>, j: nat)
    requires j < |displays|
    ensures SetInputsFor(e, displays[..j + 1])
      == SetInputsFor(e, displays[..j]) + (if displays[j].id == e.key then [InputSet(displays[j], e.value)] else [])
  {
    assert displays[..j + 1][..j] == displays[..j];
  }

  /** One more entry in the outer loop of OnInputChangeRequested. */
  lemma SetInputsStep(changes: DisplayMap, displays: seq<Display>, i: nat)
    requires i < |changes|
    ensures SetInputs(changes[..i + 1], displays) == SetInputs(changes[..i], displays) + SetInputsFor(changes[i], displays)
  {
    assert changes[..i + 1][..i] == changes[..i];
  }

  /** What the displays report once every SetInput call has taken effect. */
  function Applied(displays: seq<Display>, calls: seq<InputSet>): (r: seq<Display>)
    ensures |r| == |displays|
    ensures forall i :: 0 <= i < |r| ==> r[i].id == displays[i].id
  {
    if calls == [] then displays
    else
      var c := calls[|calls| - 1];
      var p := Applied(displays, calls[..|calls| - 1]);
      seq(|p|, i requires 0 <= i < |p| => if p[i].id == c.display.id then p[i].(input := c.input) else p[i])
  }

  /** After the calls, a display reports the input of the last call aimed at its key. */
  lemma {:induction false} AppliedReportsLastCall(displays: seq<Display>, calls: seq<InputSet>, i: nat, c: nat)
    requires i < |displays| && c < |calls| && calls[c].display.id == displays[i].id
    requires forall c2 :: c < c2 < |calls| ==> calls[c2].display.id != displays[i].id
    ensures Applied(displays, calls)[i].input == calls[c].input
  {
    if c < |calls| - 1 {
      AppliedReportsLastCall(displays, calls[..|calls| - 1], i, c);
    }
  }

  /**
   * Applying a request settles it: once SetInput has taken effect for every
   * call a request makes, no display named in the request is on another input.
   */
  lemma AppliedRequestSettles(changes: DisplayMap, displays: seq<Display>)
    requires Ascending(changes)
    ensures Mismatches(changes, Applied(displays, SetInputs(changes, displays))) == []
  {
    var calls := SetInputs(changes, displays);
    var after := Applied(displays, calls);
    forall k | 0 <= k < |changes| ensures !Mismatched(after, changes[k]) {
      var e := changes[k];
      forall i | 0 <= i < |after| && after[i].id == e.key ensures after[i].input == e.value {
        assert displays[i] in displays;
        assert InputSet(displays[i], e.value) in calls;
        var c :| 0 <= c < |calls| && calls[c] == InputSet(displays[i], e.value);
        var c' := LastCallFor(calls, c, e.key);
        assert Entry(calls[c'].display.id, calls[c'].input) in changes;
        UniqueValue(changes, e, Entry(calls[c'].display.id, calls[c'].input));
        AppliedReportsLastCall(displays, calls, i, c');
      }
    }
    NothingMismatchedIsEmpty(changes, after);
  }

  /** With no entry mismatched, the reference is empty. */
  lemma {:induction false} NothingMismatchedIsEmpty(m: DisplayMap, displays: seq<Display>)
    requires forall k :: 0 <= k < |m| ==> !Mismatched(displays, m[k])
    ensures Mismatches(m, displays) == []
  {
    if m != [] {
      var init := m[..|m| - 1];
      assert forall k :: 0 <= k < |init| ==> init[k] == m[k];
      NothingMismatchedIsEmpty(init, displays);
    }
  }

  /** The last call at or after `c` aimed at `key`. */
  lemma LastCallFor(calls: seq<InputSet>, c: nat, key: DisplayId) returns (c': nat)
    requires c < |calls| && calls[c].display.id == key
    ensures c <= c' < |calls| && calls[c'].display.id == key
    ensures forall c2 :: c' < c2 < |calls| ==> calls[c2].display.id != key
    decreases |calls| - c
  {
    if exists c2 :: c < c2 < |calls| && calls[c2].display.id == key {
      var c2 :| c < c2 < |calls| && calls[c2].display.id == key;
      c' := LastCallFor(calls, c2, key);
    } else {
      c' := c;
    }
  }

  /** An ascending map holds one value per key. */
  lemma UniqueValue(m: DisplayMap, a: Entry, b: Entry)
    requires Ascending(m) && a in m && b in m && a.key == b.key
    ensures a == b
  {
    var i :| 0 <= i < |m| && m[i] == a;
    var j :| 0 <= j < |m| && m[j] == b;
    LessIsStrictTotalOrder(a.key, a.key, a.key);
  }

  // ---------------------------------------------------------------------
  // The coordinator's state and its transitions.

  /** The coordinator's own state: the mode, the listeners, the wanted inputs and the trigger device (absent until set). */
  datatype Coordinator = Coordinator(state: State, listeners: seq<ListenerId>, desired: DisplayMap, trigger: Option<UsbDevice>)

  /** What one event does: the new state, the listener calls in order, and the change map sent to the cluster, if any. */
  datatype Reaction = Reaction(after: Coordinator, notices: seq<Notice<KvmEvent>>, request: Option<DisplayMap>)

  /** ChangeState: store the new mode and tell every listener (old, new), even when they are equal. */
  function Transition(c: Coordinator, s: State): (r: Reaction)
    ensures r.after == c.(state := s) && r.request.None?
    ensures |r.notices| == |c.listeners|
    ensures forall i :: 0 <= i < |r.notices| ==> r.notices[i] == Notice(c.listeners[i], StateChanged(c.state, s))
  {
    Reaction(c.(state := s), Broadcast(c.listeners, StateChanged(c.state, s)), None)
  }

  /** The trigger device is set and `device` compares equal to it. */
  predicate IsTrigger(c: Coordinator, device: UsbDevice)
  {
    c.trigger.Some? && Same(device, c.trigger.value)
  }

  /**
   * OnDeviceConnected: for the trigger, compute the changes, tell the
   * listeners the trigger arrived, then either request the changes and wait
   * or, with nothing to change, become active. Other devices are ignored.
   */
  function DeviceArrived(c: Coordinator, device: UsbDevice, displays: seq<Display>): (r: Reaction)
    ensures r.after.listeners == c.listeners && r.after.desired == c.desired && r.after.trigger == c.trigger
    ensures !IsTrigger(c, device) ==> r == Reaction(c, [], None)
    ensures IsTrigger(c, device) ==> |r.notices| == (if r.request.Some? then 3 else 2) * |c.listeners|
    ensures r.request.Some? ==> r.request.value != [] && r.after.state == RequestingInput
  {
    if !IsTrigger(c, device) then Reaction(c, [], None)
    else
      var changes := Changes(c.desired, displays);
      var told := Broadcast(c.listeners, TriggerDeviceConnected(device));
      if |changes| > 0 then
        var t := Transition(c, RequestingInput);
        Reaction(t.after, told + t.notices + Broadcast(c.listeners, DisplayInputChangesRequested(changes)), Some(changes))
      else
        var t := Transition(c, Active);
        Reaction(t.after, told + t.notices, None)
  }

  /**
   * What the trigger connection does, against the reference: the request is
   * exactly the mismatching desired entries and is made iff there is one;
   * the mode becomes RequestingInput then, Active otherwise. The listeners
   * hear, in order: the trigger arrived, the mode change, and the request
   * when one is made. Any other device changes nothing.
   */
  lemma TriggerConnectOutcome(c: Coordinator, device: UsbDevice, displays: seq<Display>)
    requires Ascending(c.desired)
    ensures var r := DeviceArrived(c, device, displays);
      var wanted := Mismatches(c.desired, displays);
      (!IsTrigger(c, device) ==> r == Reaction(c, [], None))
      && (IsTrigger(c, device) ==>
            r.after == c.(state := if wanted == [] then Active else RequestingInput)
            && r.request == (if wanted == [] then None else Some(wanted))
            && r.notices == Broadcast(c.listeners, TriggerDeviceConnected(device))
                 + Broadcast(c.listeners, StateChanged(c.state, r.after.state))
                 + (if wanted == [] then [] else Broadcast(c.listeners, DisplayInputChangesRequested(wanted))))
  {
    ChangesAreMismatches(c.desired, displays);
  }

  /** OnDeviceDisconnected: the trigger going away makes the coordinator inactive from any mode. */
  function DeviceLeft(c: Coordinator, device: UsbDevice): (r: Reaction)
    ensures IsTrigger(c, device) ==>
      (r.after == c.(state := Inactive) && r.notices == Broadcast(c.listeners, StateChanged(c.state, Inactive)))
    ensures !IsTrigger(c, device) ==> r == Reaction(c, [], None)
  {
    if IsTrigger(c, device) then Transition(c, Inactive) else Reaction(c, [], None)
  }

  /** OnInputChangeResponse: a waiting coordinator becomes active once no display is on a non-preferred input. */
  function InputChangeResponse(c: Coordinator, displays: seq<Display>): (r: Reaction)
    ensures r.request.None?
    ensures r.after.listeners == c.listeners && r.after.desired == c.desired && r.after.trigger == c.trigger
    ensures r.after.state != c.state ==> c.state == RequestingInput && r.after.state == Active
  {
    if c.state == RequestingInput && |NonPreferred(c.desired, displays)| == 0 then Transition(c, Active)
    else Reaction(c, [], None)
  }

  /** The response moves the mode only from RequestingInput, and only when nothing is left to change. */
  lemma ResponseActivatesWhenSettled(c: Coordinator, displays: seq<Display>)
    ensures var r := InputChangeResponse(c, displays);
      r.request.None? && r.after.listeners == c.listeners && r.after.desired == c.desired
      && (r.after.state != c.state <==> c.state == RequestingInput && Mismatches(c.desired, displays) == [])
      && (r.after.state != c.state ==> r.after.state == Active)
  {
    NonPreferredEmptyIffNothingToChange(c.desired, displays);
  }

  /**
   * The whole exchange: the trigger connects, the request goes out, and once
   * its changes have been applied to those same displays, the response makes
   * the coordinator active.
   */
  lemma RequestThenAppliedResponseActivates(c: Coordinator, device: UsbDevice, displays: seq<Display>)
    requires Ascending(c.desired) && IsTrigger(c, device)
    requires DeviceArrived(c, device, displays).request.Some?
    ensures var r := DeviceArrived(c, device, displays);
      var after := Applied(displays, SetInputs(r.request.value, displays));
      InputChangeResponse(r.after, after).after.state == Active
  {
    TriggerConnectOutcome(c, device, displays);
    var r := DeviceArrived(c, device, displays);
    var after := Applied(displays, SetInputs(r.request.value, displays));
    AppliedSettlesDesired(c.desired, displays);
    ResponseActivatesWhenSettled(r.after, after);
  }

  /** Applying the mismatching entries settles the whole desired map. */
  lemma AppliedSettlesDesired(desired: DisplayMap, displays: seq<Display>)
    requires Ascending(desired)
    ensures var changes := Mismatches(desired, displays);
      Mismatches(desired, Applied(displays, SetInputs(changes, displays))) == []
  {
    var changes := Mismatches(desired, displays);
    ChangesAreMismatches(desired, displays);
    var calls := SetInputs(changes, displays);
    var after := Applied(displays, calls);
    AppliedRequestSettles(changes, displays);
    forall k | 0 <= k < |desired| ensures !Mismatched(after, desired[k]) {
      var e := desired[k];
      if e in changes {
        var j :| 0 <= j < |changes| && changes[j] == e;
      } else {
        SettledEntryUntouched(desired, displays, e);
      }
    }
    NothingMismatchedIsEmpty(desired, after);
  }

  /** A desired entry no display disagrees with is aimed at by no call, and so stays settled. */
  lemma SettledEntryUntouched(desired: DisplayMap, displays: seq<Display>, e: Entry)
    requires Ascending(desired) && e in desired && e !in Mismatches(desired, displays)
    ensures !Mismatched(Applied(displays, SetInputs(Mismatches(desired, displays), displays)), e)
  {
    var changes := Mismatches(desired, displays);
    var calls := SetInputs(changes, displays);
    var after := Applied(displays, calls);
    forall c | 0 <= c < |calls| ensures calls[c].display.id != e.key {
      var f := Entry(calls[c].display.id, calls[c].input);
      if f.key == e.key {
        assert f in changes;
        UniqueValue(desired, e, f);
      }
    }
    forall i | 0 <= i < |after| && after[i].id == e.key ensures after[i].input == e.value {
      AppliedLeavesUntouched(displays, calls, i);
    }
  }

  /** A display no call is aimed at keeps its input. */
  lemma {:induction false} AppliedLeavesUntouched(displays: seq<Display>, calls: seq<InputSet>, i: nat)
    requires i < |displays|
    ensures (forall c :: 0 <= c < |calls| ==> calls[c].display.id != displays[i].id) ==> Applied(displays, calls)[i] == displays[i]
  {
    if calls != [] {
      AppliedLeavesUntouched(displays, calls[..|calls| - 1], i);
    }
  }

  // ---------------------------------------------------------------------
  // The object.

  /** KVM: the coordinator object, owning its cluster and its USB monitor and listening to both. */
  class KVM {
    var state: State
    var listeners: seq<ListenerId>
    var desired: DisplayMap
    var trigger: Option<UsbDevice>
    const cluster: Clusters.Cluster
    const monitor: UsbMonitor
    const self: ListenerId

    function Model(): Coordinator
      reads this
    {
      Coordinator(state, listeners, desired, trigger)
    }

    /** The desired inputs form a map, kept in key order. */
    predicate Valid()
      reads this
    {
      Ascending(desired)
    }

    /** The constructor registers the coordinator with the monitor and the cluster. */
    constructor (port: U16, self: ListenerId, clusterId: ListenerId)
      ensures Valid() && Model() == Coordinator(Inactive, [], [], None) && this.self == self
      ensures fresh(cluster) && cluster.Model() == Clusters.ClusterState(Sockets.Disconnected, [], [self])
      ensures cluster.port == port && cluster.self == clusterId
      ensures fresh(monitor) && monitor.devices == [] && monitor.listeners == [self]
    {
      var c := new Clusters.Cluster(port, clusterId);
      var m := new UsbMonitor();
      m.AddListener(self);
      c.AddListener(self);
      assert AddLast([], self) == [self];
      state := Inactive;
      listeners := [];
      desired := [];
      trigger := None;
      this.self := self;
      cluster := c;
      monitor := m;
    }

    /** SetDesiredInputs: replace the wanted inputs. */
    method SetDesiredInputs(inputs: DisplayMap)
      requires Ascending(inputs)
      modifies this
      ensures Valid() && Model() == old(Model()).(desired := inputs)
    {
      desired := inputs;
    }

    /** SetTriggerDevice: the device whose arrival and departure drive the coordinator. */
    method SetTriggerDevice(device: UsbDevice)
      modifies this
      ensures Model() == old(Model()).(trigger := Some(device)) && IsTrigger(Model(), device)
    {
      trigger := Some(device);
      SameIgnoresDescription(device, device, device, device.description);
    }

    method AddListener(listener: ListenerId)
      modifies this
      ensures Model() == old(Model()).(listeners := AddLast(old(listeners), listener))
    {
      listeners := RemoveAll(listeners, listener) + [listener];
    }

    method RemoveListener(listener: ListenerId)
      modifies this
      ensures Model() == old(Model()).(listeners := RemoveAll(old(listeners), listener))
    {
      listeners := RemoveAll(listeners, listener);
    }

    /** The change map: for each wanted entry, each live display with that key on another input. */
    method ComputeChanges(displays: seq<Display>) returns (changes: DisplayMap)
      ensures changes == Changes(desired, displays)
    {
      changes := [];
      var i := 0;
      while i < |desired|
        invariant 0 <= i <= |desired|
        invariant changes == Changes(desired[..i], displays)
      {
        var e := desired[i];
        ghost var start := changes;
        var j := 0;
        while j < |displays|
          invariant 0 <= j <= |displays|
          invariant changes == Mark(start, e, displays[..j])
        {
          assert displays[..j + 1][..j] == displays[..j];
          if displays[j].id == e.key && displays[j].input != e.value {
            changes := Put(changes, displays[j].id, e.value);
          }
          j := j + 1;
        }
        assert displays[..j] == displays;
        assert desired[..i + 1][..i] == desired[..i];
        i := i + 1;
      }
      assert desired[..i] == desired;
    }

    /** ListDisplaysWithNonPreferredInput. */
    method ListDisplaysWithNonPreferredInput(displays: seq<Display>) returns (results: seq<Display>)
      ensures results == NonPreferred(desired, displays)
    {
      results := [];
      var i := 0;
      while i < |desired|
        invariant 0 <= i <= |desired|
        invariant results == NonPreferred(desired[..i], displays)
      {
        var e := desired[i];
        ghost var start := results;
        var j := 0;
        while j < |displays|
          invariant 0 <= j <= |displays|
          invariant results == start + WrongInputs(e, displays[..j])
        {
          assert displays[..j + 1][..j] == displays[..j];
          if displays[j].id == e.key && displays[j].input != e.value {
            results := results + [displays[j]];
          }
          j := j + 1;
        }
        assert displays[..j] == displays;
        assert desired[..i + 1][..i] == desired[..i];
        i := i + 1;
      }
      assert desired[..i] == desired;
    }

    /** ChangeState: store the mode, then tell every listener (old, new). */
    method ChangeState(s: State) returns (notices: seq<Notice<KvmEvent>>)
      modifies this
      ensures Reaction(Model(), notices, None) == Transition(old(Model()), s)
    {
      var from := state;
      state := s;
      notices := Announce(listeners, StateChanged(from, s));
    }

    /** OnDeviceConnected: the trigger's arrival, with the cluster asked to make the changes. */
    method OnDeviceConnected(device: UsbDevice, displays: seq<Display>) returns (notices: seq<Notice<KvmEvent>>, sent: seq<Clusters.Delivery>)
      requires Valid()
      modifies this
      ensures Valid()
      ensures var r := DeviceArrived(old(Model()), device, displays);
        Model() == r.after && notices == r.notices
        && sent == (if r.request.Some? then Clusters.BroadcastMap(cluster.nodes, CHANGE_INPUT_REQUEST, r.request.value) else [])
    {
      notices, sent := [], [];
      if trigger.Some? && Same(device, trigger.value) {
        var changes := ComputeChanges(displays);
        notices := Announce(listeners, TriggerDeviceConnected(device));
        if |changes| > 0 {
          sent := cluster.RequestInputChange(changes);
          var changed := ChangeState(RequestingInput);
          var requested := Announce(listeners, DisplayInputChangesRequested(changes));
          notices := notices + changed + requested;
        } else {
          var changed := ChangeState(Active);
          notices := notices + changed;
        }
      }
    }

    /** OnDeviceDisconnected: the trigger's departure makes the coordinator inactive. */
    method OnDeviceDisconnected(device: UsbDevice) returns (notices: seq<Notice<KvmEvent>>)
      modifies this
      ensures Reaction(Model(), notices, None) == DeviceLeft(old(Model()), device)
    {
      notices := [];
      if trigger.Some? && Same(device, trigger.value) {
        notices := ChangeState(Inactive);
      }
    }

    /** OnNodeConnected: passed on to every listener. */
    method OnNodeConnected(node: Clusters.NodeIndex) returns (notices: seq<Notice<KvmEvent>>)
      ensures notices == Broadcast(listeners, NodeConnected(node))
    {
      notices := Announce(listeners, NodeConnected(node));
    }

    /** OnNodeDisconnected: passed on to every listener. */
    method OnNodeDisconnected(node: Clusters.NodeIndex) returns (notices: seq<Notice<KvmEvent>>)
      ensures notices == Broadcast(listeners, NodeDisconnected(node))
    {
      notices := Announce(listeners, NodeDisconnected(node));
    }

    /** OnInputChangeRequested: SetInput on each live display named in the request; nothing is sent back. */
    method OnInputChangeRequested(sender: Clusters.NodeIndex, changes: DisplayMap, displays: seq<Display>) returns (calls: seq<InputSet>)
      ensures calls == SetInputs(changes, displays)
    {
      calls := [];
      var i := 0;
      while i < |changes|
        invariant 0 <= i <= |changes|
        invariant calls == SetInputs(changes[..i], displays)
      {
        var e := changes[i];
        ghost var start := calls;
        var j := 0;
        while j < |displays|
          invariant 0 <= j <= |displays|
          invariant calls == start + SetInputsFor(e, displays[..j])
        {
          SetInputsForStep(e, displays, j);
          if displays[j].id == e.key {
            calls := calls + [InputSet(displays[j], e.value)];
          }
          j := j + 1;
        }
        assert displays[..j] == displays;
        SetInputsStep(changes, displays, i);
        i := i + 1;
      }
      assert changes[..i] == changes;
    }

    /** OnInputChangeResponse: the results are not looked at; only the live displays decide. */
    method OnInputChangeResponse(sender: Clusters.NodeIndex, results: DisplayMap, displays: seq<Display>) returns (notices: seq<Notice<KvmEvent>>)
      modifies this
      ensures Reaction(Model(), notices, None) == InputChangeResponse(old(Model()), displays)
    {
      notices := [];
      if state == RequestingInput {
        var wrong := ListDisplaysWithNonPreferredInput(displays);
        if |wrong| == 0 {
          notices := ChangeState(Active);
        }
      }
    }
  }
}
