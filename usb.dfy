/**
 * USB devices and the monitor that tracks which are connected. Two devices
 * are "equal" in the source's sense when their vendor and product ids match;
 * the description does not take part. Listener notifications are returned
 * as a list of events, in the order the listeners would be called.
 */
module Usb {
  import opened Bytes
  import opened Listeners

  /** USBDevice: a description and the vendor and product ids from the USB device descriptor. */
  datatype UsbDevice = UsbDevice(description: string, vendor: U16, product: U16)

  /** USBDevice::operator==: vendor and product ids match. */
  predicate Same(a: UsbDevice, b: UsbDevice)
  {
    a.vendor == b.vendor && a.product == b.product
  }

  /** operator== ignores the description: devices differing only there are equal, and equality is an equivalence. */
  lemma SameIgnoresDescription(a: UsbDevice, b: UsbDevice, c: UsbDevice, description: string)
    ensures Same(a, a.(description := description))
    ensures Same(a, b) <==> Same(b, a)
    ensures Same(a, b) && Same(b, c) ==> Same(a, c)
    ensures Same(a, b) <==> a.(description := "") == b.(description := "")
  {
  }

  /** Number of stored devices equal to `d`. */
  function CountSame(devices: seq<UsbDevice>, d: UsbDevice): nat
  {
    if devices == [] then 0
    else CountSame(devices[..|devices| - 1], d) + (if Same(devices[|devices| - 1], d) then 1 else 0)
  }

  /** erase(remove(begin, end, d), end) with operator==: every device equal to `d` goes, the rest keep their order. */
  function RemoveSame(devices: seq<UsbDevice>, d: UsbDevice): (r: seq<UsbDevice>)
    ensures forall i :: 0 <= i < |r| ==> !Same(r[i], d)
    ensures CountSame(r, d) == 0
    ensures |r| == |devices| - CountSame(devices, d)
  {
    if devices == [] then []
    else
      var last := devices[|devices| - 1];
      var kept := RemoveSame(devices[..|devices| - 1], d);
      if Same(last, d) then kept
      else
        assert (kept + [last])[..|kept|] == kept;
        kept + [last]
  }

  /** A device not equal to `d` survives RemoveSame exactly as often as it was stored. */
  lemma {:induction false} RemoveSameKeepsOthers(devices: seq<UsbDevice>, d: UsbDevice, e: UsbDevice)
    requires !Same(e, d)
    ensures multiset(RemoveSame(devices, d))[e] == multiset(devices)[e]
  {
    if devices != [] {
      var init := devices[..|devices| - 1];
      var last := devices[|devices| - 1];
      RemoveSameKeepsOthers(init, d, e);
      assert devices == init + [last];
      var kept := RemoveSame(init, d);
      var r := RemoveSame(devices, d);
      if Same(last, d) {
        assert r == kept;
        assert last != e;
      } else {
        assert r == kept + [last];
        MultisetSnoc(kept, last, e);
      }
      MultisetSnoc(init, last, e);
    }
  }

  /** Appending one device adds one to its own count only. */
  lemma MultisetSnoc(s: seq<UsbDevice>, x: UsbDevice, e: UsbDevice)
    ensures multiset(s + [x])[e] == multiset(s)[e] + (if x == e then 1 else 0)
  {
    assert multiset(s + [x]) == multiset(s) + multiset{x};
  }

  /** RemoveSame keeps the relative order of the survivors: it distributes over concatenation, as a filter does. */
  lemma {:induction false} RemoveSameDistributes(front: seq<UsbDevice>, back: seq<UsbDevice>, d: UsbDevice)
    ensures RemoveSame(front + back, d) == RemoveSame(front, d) + RemoveSame(back, d)
    decreases |back|
  {
    if back == [] {
      assert front + back == front;
    } else {
      var init := back[..|back| - 1];
      var last := back[|back| - 1];
      assert (front + back)[..|front + back| - 1] == front + init;
      assert (front + back)[|front + back| - 1] == last;
      RemoveSameDistributes(front, init, d);
    }
  }

  /** The two callbacks of USBMonitor::Subscriber. */
  datatype UsbEvent = DeviceConnected(device: UsbDevice) | DeviceDisconnected(device: UsbDevice)

  /** OnDeviceDisconnected's notifications: for each stored device equal to `d`, one broadcast naming the stored copy. */
  function DisconnectNotices(devices: seq<UsbDevice>, listeners: seq<ListenerId>, d: UsbDevice): seq<Notice<UsbEvent>>
  {
    if devices == [] then []
    else
      var last := devices[|devices| - 1];
      DisconnectNotices(devices[..|devices| - 1], listeners, d)
        + (if Same(last, d) then Broadcast(listeners, DeviceDisconnected(last)) else [])
  }

  /** Each listener hears once per stored device equal to `d`; nobody hears anything when no such device was stored. */
  lemma {:induction false} DisconnectNoticesCount(devices: seq<UsbDevice>, listeners: seq<ListenerId>, d: UsbDevice)
    ensures |DisconnectNotices(devices, listeners, d)| == |listeners| * CountSame(devices, d)
  {
    if devices != [] {
      var init := devices[..|devices| - 1];
      DisconnectNoticesCount(init, listeners, d);
      var c := CountSame(init, d);
      assert |listeners| * (c + 1) == |listeners| * c + |listeners|;
    }
  }

  /**
   * Every disconnect notice goes to a subscribed listener and names a stored
   * device equal to `d`: the stored copy, which may carry another description.
   */
  lemma {:induction false} DisconnectNoticesNameStoredDevices(devices: seq<UsbDevice>, listeners: seq<ListenerId>, d: UsbDevice, k: nat)
    requires k < |DisconnectNotices(devices, listeners, d)|
    ensures DisconnectNotices(devices, listeners, d)[k].event.DeviceDisconnected?
    ensures DisconnectNotices(devices, listeners, d)[k].listener in listeners
    ensures DisconnectNotices(devices, listeners, d)[k].event.device in devices
    ensures Same(DisconnectNotices(devices, listeners, d)[k].event.device, d)
  {
    var init := devices[..|devices| - 1];
    var last := devices[|devices| - 1];
    var front := DisconnectNotices(init, listeners, d);
    if k < |front| {
      DisconnectNoticesNameStoredDevices(init, listeners, d, k);
      assert front[k].event.device in init;
    } else {
      assert DisconnectNotices(devices, listeners, d)[k] == Broadcast(listeners, DeviceDisconnected(last))[k - |front|];
    }
  }

  /** USBMonitor: the connected devices and the subscribed listeners. */
  class UsbMonitor {
    var devices: seq<UsbDevice>
    var listeners: seq<ListenerId>

    constructor ()
      ensures devices == [] && listeners == []
    {
      devices := [];
      listeners := [];
    }

    /** AddListener: remove every copy, then append one. */
    method AddListener(listener: ListenerId)
      modifies this
      ensures listeners == AddLast(old(listeners), listener)
      ensures devices == old(devices)
    {
      listeners := RemoveAll(listeners, listener);
      listeners := listeners + [listener];
    }

    /** RemoveListener: remove every copy, keeping the others in order. */
    method RemoveListener(listener: ListenerId)
      modifies this
      ensures listeners == RemoveAll(old(listeners), listener)
      ensures devices == old(devices)
    {
      listeners := RemoveAll(listeners, listener);
    }

    /**
     * OnDeviceConnected: drop every stored device equal to `d`, store `d`
     * last and tell each listener once.
     */
    method OnDeviceConnected(d: UsbDevice) returns (notices: seq<Notice<UsbEvent>>)
      modifies this
      ensures devices == RemoveSame(old(devices), d) + [d]
      ensures CountSame(devices, d) == 1 && devices[|devices| - 1] == d
      ensures listeners == old(listeners)
      ensures notices == Broadcast(listeners, DeviceConnected(d))
    {
      devices := RemoveSame(devices, d) + [d];
      assert devices[..|devices| - 1] == RemoveSame(old(devices), d);
      notices := Announce(listeners, DeviceConnected(d));
    }

    /**
     * OnDeviceDisconnected: for each stored device equal to `d`, tell every
     * listener about that stored device; then drop them all.
     */
    method OnDeviceDisconnected(d: UsbDevice) returns (notices: seq<Notice<UsbEvent>>)
      modifies this
      ensures notices == DisconnectNotices(old(devices), listeners, d)
      ensures devices == RemoveSame(old(devices), d) && CountSame(devices, d) == 0
      ensures listeners == old(listeners)
    {
      notices := [];
      var i := 0;
      while i < |devices|
        invariant 0 <= i <= |devices|
        invariant notices == DisconnectNotices(devices[..i], listeners, d)
        invariant devices == old(devices) && listeners == old(listeners)
      {
        assert devices[..i + 1][..i] == devices[..i];
        if Same(devices[i], d) {
          var broadcast := Announce(listeners, DeviceDisconnected(devices[i]));
          notices := notices + broadcast;
        }
        i := i + 1;
      }
      assert devices[..i] == devices;
      devices := RemoveSame(devices, d);
    }
  }
}
