/**
 * std::map keyed by a display: an association list kept in strictly
 * ascending key order, which is the order in which the serializers and the
 * coordinator iterate a map.
 */
module DisplayMaps {
  import opened Displays
  import opened Results
  import opened Bytes

  /** Both maps of the protocol hold one byte per display: an input code or a result code. */
  datatype Entry = Entry(key: DisplayId, value: Byte)

  type DisplayMap = seq<Entry>

  /** Keys strictly ascending: sorted, hence no key twice. */
  predicate Ascending(m: DisplayMap)
  {
    forall i, j :: 0 <= i < j < |m| ==> Less(m[i].key, m[j].key)
  }

  predicate HasKey(m: DisplayMap, k: DisplayId)
  {
    exists i :: 0 <= i < |m| && m[i].key == k
  }

  /** operator[] read access: the value stored under `k`, if any. */
  function Lookup(m: DisplayMap, k: DisplayId): (r: Option<Byte>)
    ensures r.Some? <==> HasKey(m, k)
    ensures r.Some? ==> exists i :: 0 <= i < |m| && m[i] == Entry(k, r.value)
  {
    if m == [] then None
    else if m[0].key == k then Some(m[0].value)
    else
      var r := Lookup(m[1..], k);
      assert forall i :: 0 < i < |m| ==> m[i] == m[1..][i - 1];
      if r.Some? then
        var i :| 0 <= i < |m[1..]| && m[1..][i] == Entry(k, r.value);
        assert m[i + 1] == Entry(k, r.value);
        r
      else
        assert forall i :: 0 < i < |m| ==> m[i].key != k by {
          forall i | 0 < i < |m| ensures m[i].key != k {
            assert m[1..][i - 1] == m[i];
          }
        }
        r
  }

  /**
   * `m[k] = v`: insert a new key at its place in key order, or replace the
   * value of an existing key.
   */
  function Put(m: DisplayMap, k: DisplayId, v: Byte): (r: DisplayMap)
    requires Ascending(m)
    ensures Ascending(r)
    ensures forall x {:trigger HasKey(r, x)} :: HasKey(r, x) ==> x == k || HasKey(m, x)
  {
    if m == [] then [Entry(k, v)]
    else if m[0].key == k then
      assert forall i :: 0 < i < |m| ==> m[1..][i - 1] == m[i];
      [Entry(k, v)] + m[1..]
    else if Less(k, m[0].key) then
      assert forall j :: 0 < j < |m| ==> Less(k, m[j].key) by {
        forall j | 0 < j < |m| ensures Less(k, m[j].key) {
          LessIsStrictTotalOrder(k, m[0].key, m[j].key);
        }
      }
      [Entry(k, v)] + m
    else
      LessIsStrictTotalOrder(k, m[0].key, m[0].key);
      var rest := Put(m[1..], k, v);
      ConsStaysAscending(m, k, rest);
      [m[0]] + rest
  }

  /**
   * The last case of Put: a key after the first one goes into the rest, and
   * the first entry stays in front.
   */
  lemma ConsStaysAscending(m: DisplayMap, k: DisplayId, rest: DisplayMap)
    requires Ascending(m) && m != [] && Less(m[0].key, k)
    requires Ascending(rest)
    requires forall x {:trigger HasKey(rest, x)} :: HasKey(rest, x) ==> x == k || HasKey(m[1..], x)
    ensures Ascending([m[0]] + rest)
    ensures forall x {:trigger HasKey([m[0]] + rest, x)} :: HasKey([m[0]] + rest, x) ==> x == k || HasKey(m, x)
  {
    forall i | 0 <= i < |rest| ensures Less(m[0].key, rest[i].key) {
      assert HasKey(rest, rest[i].key);
      if rest[i].key != k {
        var j :| 0 <= j < |m[1..]| && m[1..][j].key == rest[i].key;
        assert m[j + 1] == m[1..][j];
      }
    }
    var r := [m[0]] + rest;
    forall x | HasKey(r, x) && x != k ensures HasKey(m, x) {
      var i :| 0 <= i < |r| && r[i].key == x;
      if i > 0 {
        assert r[i] == rest[i - 1] && HasKey(rest, x);
        var j :| 0 <= j < |m[1..]| && m[1..][j].key == x;
        assert m[j + 1] == m[1..][j];
      }
    }
  }

  /** Looking up after `m[k] = v` yields `v` for `k` and the old value for every other key. */
  lemma {:induction false} LookupPut(m: DisplayMap, k: DisplayId, v: Byte, k2: DisplayId)
    requires Ascending(m)
    ensures Lookup(Put(m, k, v), k2) == if k2 == k then Some(v) else Lookup(m, k2)
  {
    if m == [] {
    } else if m[0].key == k {
      assert Put(m, k, v)[1..] == m[1..];
    } else if Less(k, m[0].key) {
      assert Put(m, k, v)[1..] == m;
    } else {
      var r := Put(m, k, v);
      assert r[1..] == Put(m[1..], k, v);
      LookupPut(m[1..], k, v, k2);
    }
  }

  /** A key greater than every key of the map goes at the end: the decoders rely on this. */
  lemma {:induction false} PutGreatestAppends(m: DisplayMap, k: DisplayId, v: Byte)
    requires Ascending(m)
    requires forall i :: 0 <= i < |m| ==> Less(m[i].key, k)
    ensures Put(m, k, v) == m + [Entry(k, v)]
  {
    if m != [] {
      LessIsStrictTotalOrder(m[0].key, k, m[0].key);
      assert !Less(k, m[0].key) && m[0].key != k;
      PutGreatestAppends(m[1..], k, v);
      assert m == [m[0]] + m[1..];
    }
  }

  /** Assigning the last key its own value again leaves the map as it was. */
  lemma {:induction false} PutLastAgain(m: DisplayMap, e: Entry)
    requires Ascending(m + [e])
    ensures Put(m + [e], e.key, e.value) == m + [e]
  {
    if m != [] {
      var n := m + [e];
      assert n[0] == m[0] && n[|m|] == e;
      LessIsStrictTotalOrder(m[0].key, e.key, e.key);
      assert Less(m[0].key, e.key) && m[0].key != e.key && !Less(e.key, m[0].key);
      assert n[1..] == m[1..] + [e];
      assert Ascending(m[1..] + [e]) by {
        forall i, j | 0 <= i < j < |m[1..] + [e]| ensures Less((m[1..] + [e])[i].key, (m[1..] + [e])[j].key) {
          assert (m[1..] + [e])[i] == n[i + 1] && (m[1..] + [e])[j] == n[j + 1];
        }
      }
      PutLastAgain(m[1..], e);
      assert n == [m[0]] + (m[1..] + [e]);
    }
  }

  /** Fold Put over `entries` from the first to the last, starting from `m`: what a decoding loop builds. */
  function PutAll(m: DisplayMap, entries: seq<Entry>): (r: DisplayMap)
    requires Ascending(m)
    ensures Ascending(r)
    decreases |entries|
  {
    if entries == [] then m
    else PutAll(Put(m, entries[0].key, entries[0].value), entries[1..])
  }

  /** Putting the entries of an ascending list after a map whose keys are all smaller rebuilds their concatenation. */
  lemma {:induction false} PutAllAppends(m: DisplayMap, entries: seq<Entry>)
    requires Ascending(m + entries)
    ensures Ascending(m)
    ensures PutAll(m, entries) == m + entries
    decreases |entries|
  {
    assert forall i :: 0 <= i < |m| ==> (m + entries)[i] == m[i];
    if entries != [] {
      var e := entries[0];
      assert forall i :: 0 <= i < |m| ==> Less(m[i].key, e.key) by {
        forall i | 0 <= i < |m| ensures Less(m[i].key, e.key) {
          assert (m + entries)[|m|] == e;
        }
      }
      PutGreatestAppends(m, e.key, e.value);
      assert m + entries == (m + [e]) + entries[1..];
      PutAllAppends(m + [e], entries[1..]);
    }
  }

  /** The value of the last entry for `k` in `entries`, if any. */
  function LastValue(entries: seq<Entry>, k: DisplayId): Option<Byte>
  {
    if entries == [] then None
    else if entries[|entries| - 1].key == k then Some(entries[|entries| - 1].value)
    else LastValue(entries[..|entries| - 1], k)
  }

  /** After putting a run of entries, each key holds the value of its last entry in the run (or what it held before). */
  lemma {:induction false} LookupPutAll(m: DisplayMap, entries: seq<Entry>, k: DisplayId)
    requires Ascending(m)
    ensures Lookup(PutAll(m, entries), k) == if LastValue(entries, k).Some? then LastValue(entries, k) else Lookup(m, k)
    decreases |entries|
  {
    if entries != [] {
      var e := entries[0];
      var m1 := Put(m, e.key, e.value);
      LookupPutAll(m1, entries[1..], k);
      LookupPut(m, e.key, e.value, k);
      LastValueFront(entries, k);
    }
  }

  /** LastValue read from the front: the rest decides unless it has no entry for `k`. */
  lemma {:induction false} LastValueFront(entries: seq<Entry>, k: DisplayId)
    requires entries != []
    ensures LastValue(entries, k) ==
      if LastValue(entries[1..], k).Some? then LastValue(entries[1..], k)
      else if entries[0].key == k then Some(entries[0].value) else None
    decreases |entries|
  {
    if |entries| > 1 {
      var init := entries[..|entries| - 1];
      assert entries[1..][..|entries[1..]| - 1] == init[1..];
      assert entries[1..][|entries[1..]| - 1] == entries[|entries| - 1];
      assert init[0] == entries[0];
      LastValueFront(init, k);
    } else {
      assert entries[..0] == [];
    }
  }
}
