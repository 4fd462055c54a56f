/**
 * ReferenceCounter: runs an initializer when the count of references leaves
 * zero and a destructor when it returns to zero. The count is a 32-bit
 * unsigned integer. The number of times each hook ran is kept alongside the
 * state so that the contracts can speak about it.
 */
module References {
  import opened Bytes

  /** The counter's observable state: the count, the managed state and how often each hook ran. */
  datatype Counter<T> = Counter(references: U32, state: T, initialisations: nat, teardowns: nat)

  /** A counter with no references yet (the source's counter lives in static storage, so its count starts at zero). */
  function NewCounter<T>(state: T): Counter<T>
  {
    Counter(0, state, 0, 0)
  }

  /** operator++: from zero, store what the initializer returns; then count one more reference (wrapping at 2^32). */
  function Increment<T>(c: Counter<T>, initial: T): (r: Counter<T>)
    ensures r.references == (c.references + 1) % 0x1_0000_0000
    ensures r.teardowns == c.teardowns
    ensures c.references == 0 ==> r.state == initial && r.initialisations == c.initialisations + 1
    ensures c.references != 0 ==> r.state == c.state && r.initialisations == c.initialisations
  {
    var s := if c.references == 0 then c.(state := initial, initialisations := c.initialisations + 1) else c;
    s.(references := (c.references + 1) % 0x1_0000_0000)
  }

  /** operator--: at zero nothing happens; otherwise count one fewer, and at zero run the destructor on the state. */
  function Decrement<T>(c: Counter<T>, destroy: T -> T): (r: Counter<T>)
    ensures c.references == 0 ==> r == c
    ensures c.references > 0 ==> r.references == c.references - 1
    ensures r.initialisations == c.initialisations
    ensures c.references == 1 ==> r.state == destroy(c.state) && r.teardowns == c.teardowns + 1
    ensures c.references != 1 ==> r.state == c.state && r.teardowns == c.teardowns
  {
    if c.references == 0 then c
    else
      var s := c.(references := c.references - 1);
      if s.references == 0 then s.(state := destroy(c.state), teardowns := c.teardowns + 1) else s
  }

  /** One increment per value the initializer would return, in order. */
  function Increments<T>(c: Counter<T>, initials: seq<T>): Counter<T>
    decreases |initials|
  {
    if initials == [] then c else Increments(Increment(c, initials[0]), initials[1..])
  }

  /** `n` decrements with the same destructor. */
  function Decrements<T>(c: Counter<T>, n: nat, destroy: T -> T): Counter<T>
    decreases n
  {
    if n == 0 then c else Decrements(Decrement(c, destroy), n - 1, destroy)
  }

  /** Increments on a counter already in use only raise the count, while it stays below 2^32. */
  lemma {:induction false} IncrementsInUse<T>(c: Counter<T>, initials: seq<T>)
    requires c.references > 0 && c.references + |initials| < 0x1_0000_0000
    ensures Increments(c, initials) == c.(references := c.references + |initials|)
    decreases |initials|
  {
    if initials != [] {
      IncrementsInUse(Increment(c, initials[0]), initials[1..]);
    }
  }

  /** Decrements that leave at least one reference only lower the count. */
  lemma {:induction false} DecrementsInUse<T>(c: Counter<T>, n: nat, destroy: T -> T)
    requires n < c.references
    ensures Decrements(c, n, destroy) == c.(references := c.references - n)
    decreases n
  {
    if n > 0 {
      DecrementsInUse(Decrement(c, destroy), n - 1, destroy);
    }
  }

  /**
   * A balanced run from zero: n increments then n decrements (0 < n < 2^32)
   * run the initializer once, the destructor once on what the first
   * initializer returned, and bring the count back to zero.
   */
  lemma BalancedRunInitialisesAndTearsDownOnce<T>(c: Counter<T>, initials: seq<T>, destroy: T -> T)
    requires c.references == 0 && 0 < |initials| < 0x1_0000_0000
    ensures var r := Decrements(Increments(c, initials), |initials|, destroy);
      r.references == 0 && r.state == destroy(initials[0])
      && r.initialisations == c.initialisations + 1 && r.teardowns == c.teardowns + 1
  {
    var n := |initials|;
    var first := Increment(c, initials[0]);
    IncrementsInUse(first, initials[1..]);
    var up := Increments(c, initials);
    assert up == first.(references := n);
    DecrementsInUse(up, n - 1, destroy);
    var one := Decrements(up, n - 1, destroy);
    assert one.references == 1;
    assert Decrements(one, 1, destroy) == Decrement(one, destroy);
    DecrementsSplit(up, n - 1, 1, destroy);
  }

  /** Decrements compose: n then m is n + m. */
  lemma {:induction false} DecrementsSplit<T>(c: Counter<T>, n: nat, m: nat, destroy: T -> T)
    ensures Decrements(Decrements(c, n, destroy), m, destroy) == Decrements(c, n + m, destroy)
    decreases n
  {
    if n > 0 {
      DecrementsSplit(Decrement(c, destroy), n - 1, m, destroy);
    }
  }

  /** 2^32 increments from zero wrap the count to zero, so the next increment initialises again. */
  lemma WrapReinitialises<T>(c: Counter<T>, initials: seq<T>, again: T)
    requires c.references == 0 && |initials| == 0x1_0000_0000
    ensures Increments(c, initials).references == 0
    ensures Increment(Increments(c, initials), again).initialisations == c.initialisations + 2
  {
    var first := Increment(c, initials[0]);
    IncrementsInUse(first, initials[1..|initials| - 1]);
    IncrementsSnoc(first, initials[1..|initials| - 1], initials[|initials| - 1]);
    assert initials[1..|initials| - 1] + [initials[|initials| - 1]] == initials[1..];
  }

  /** Increments over `s + [x]` is one more increment after those over `s`. */
  lemma {:induction false} IncrementsSnoc<T>(c: Counter<T>, s: seq<T>, x: T)
    ensures Increments(c, s + [x]) == Increment(Increments(c, s), x)
    decreases |s|
  {
    if s == [] {
      assert [x][1..] == [];
    } else {
      assert (s + [x])[1..] == s[1..] + [x];
      IncrementsSnoc(Increment(c, s[0]), s[1..], x);
    }
  }

  /** ReferenceCounter<T>: the count, the managed state and the two hooks. */
  class ReferenceCounter<T> {
    var references: U32
    var state: T
    const initializer: () -> T
    const destructor: T -> T
    ghost var initialisations: nat
    ghost var teardowns: nat

    ghost function Model(): Counter<T>
      reads this
    {
      Counter(references, state, initialisations, teardowns)
    }

    constructor (initial: T, initializer: () -> T, destructor: T -> T)
      ensures Model() == NewCounter(initial)
      ensures this.initializer == initializer && this.destructor == destructor
    {
      references := 0;
      state := initial;
      this.initializer := initializer;
      this.destructor := destructor;
      initialisations := 0;
      teardowns := 0;
    }

    /** operator++. */
    method Acquire()
      modifies this
      ensures Model() == Increment(old(Model()), initializer())
    {
      if references == 0 {
        state := initializer();
        initialisations := initialisations + 1;
      }
      references := (references + 1) % 0x1_0000_0000;
    }

    /** operator--. */
    method Release()
      modifies this
      ensures Model() == Decrement(old(Model()), destructor)
    {
      if references > 0 {
        references := references - 1;
        if references == 0 {
          state := destructor(state);
          teardowns := teardowns + 1;
        }
      }
    }
  }
}
