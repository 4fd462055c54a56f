/**
 * The command line of the kvm program: ParseOptions reads argv into the run
 * mode, the listening port, the trigger device's vendor and product ids,
 * the preferred input of each display and the peers to contact. Numbers go
 * through atoi and are then converted to the field's unsigned width. The
 * live displays and Display::StringToInput come from the platform layer and
 * are parameters here.
 */
module CommandLine {
  import opened Bytes
  import opened Results
  import opened Displays
  import opened DisplayMaps

  datatype RunMode = Watch | ListDevices

  const DEFAULT_PORT: U16 := 10191

  /**
   * Options. The vendor and product ids are left unset until their flag is
   * seen; the parser refuses to finish without them.
   */
  datatype Options = Options(mode: RunMode, port: U16, vendor: Option<U16>, product: Option<U16>, inputs: DisplayMap, nodes: seq<string>)

  /** Why ParseOptions returned false (each case prints its own message). */
  datatype Rejection = DisplayNotFound(serial: U32) | MissingVendor | MissingProduct

  // ---------------------------------------------------------------------
  // atoi and the unsigned conversions.

  /** The characters isspace accepts in the C locale. */
  predicate IsSpace(c: char)
  {
    c == ' ' || 9 <= c as int <= 13
  }

  predicate IsDigit(c: char)
  {
    '0' <= c <= '9'
  }

  /** The leading white space atoi skips. */
  function SkipSpaces(s: string): (r: string)
    ensures |r| <= |s| && r == s[|s| - |r|..]
    ensures r == [] || !IsSpace(r[0])
  {
    if s != [] && IsSpace(s[0]) then SkipSpaces(s[1..]) else s
  }

  /** The longest run of digits at the front of `s`. */
  function DigitRun(s: string): (r: string)
    ensures r <= s
    ensures forall i :: 0 <= i < |r| ==> IsDigit(r[i])
    ensures |r| == |s| || !IsDigit(s[|r|])
  {
    if s != [] && IsDigit(s[0]) then [s[0]] + DigitRun(s[1..]) else []
  }

  /** The value of a run of decimal digits, most significant first. */
  function Decimal(ds: string): (n: nat)
    requires forall i :: 0 <= i < |ds| ==> IsDigit(ds[i])
  {
    if ds == [] then 0
    else
      var last := ds[|ds| - 1];
      assert IsDigit(last);
      Decimal(ds[..|ds| - 1]) * 10 + (last as int - '0' as int)
  }

  /**
   * atoi: skip white space, take an optional sign, then as many digits as
   * follow; no digits at all give 0.
   */
  function Atoi(s: string): (v: int)
    ensures s == [] ==> v == 0
  {
    var t := SkipSpaces(s);
    if t != [] && t[0] == '-' then -(Decimal(DigitRun(t[1..])) as int)
    else if t != [] && t[0] == '+' then Decimal(DigitRun(t[1..]))
    else Decimal(DigitRun(t))
  }

  /** The decimal spelling of `n`: the partner atoi reads back. */
  function Show(n: nat): (s: string)
    ensures |s| > 0 && forall i :: 0 <= i < |s| ==> IsDigit(s[i])
  {
    if n < 10 then [('0' as int + n) as char]
    else Show(n / 10) + [('0' as int + n % 10) as char]
  }

  /** Decimal reads back what Show spells. */
  lemma {:induction false} DecimalShow(n: nat)
    ensures Decimal(Show(n)) == n
  {
    if n >= 10 {
      DecimalShow(n / 10);
      var s := Show(n);
      assert s[..|s| - 1] == Show(n / 10);
    }
  }

  /** A run of digits is its own digit run. */
  lemma {:induction false} DigitRunOfDigits(s: string)
    requires forall i :: 0 <= i < |s| ==> IsDigit(s[i])
    ensures DigitRun(s) == s
  {
    if s != [] {
      DigitRunOfDigits(s[1..]);
    }
  }

  /** atoi reads back a decimal spelling, with or without a minus sign in front. */
  lemma AtoiShow(n: nat)
    ensures Atoi(Show(n)) == n
    ensures Atoi("-" + Show(n)) == -(n as int)
  {
    DecimalShow(n);
    AtoiDigits(Show(n));
    AtoiNegatedDigits(Show(n));
  }

  /** atoi of a plain run of digits is its decimal value. */
  lemma AtoiDigits(s: string)
    requires s != [] && forall i :: 0 <= i < |s| ==> IsDigit(s[i])
    ensures Atoi(s) == Decimal(s)
  {
    assert IsDigit(s[0]);
    assert !IsSpace(s[0]) && s[0] != '-' && s[0] != '+';
    assert SkipSpaces(s) == s;
    DigitRunOfDigits(s);
    assert Atoi(s) == Decimal(DigitRun(s));
  }

  /** atoi of a minus sign and a run of digits is the negated decimal value. */
  lemma AtoiNegatedDigits(s: string)
    requires s != [] && forall i :: 0 <= i < |s| ==> IsDigit(s[i])
    ensures Atoi("-" + s) == -(Decimal(s) as int)
  {
    var t := "-" + s;
    assert SkipSpaces(t) == t;
    assert t[1..] == s;
    DigitRunOfDigits(s);
  }

  /** The implicit conversion of an int to uint16_t: reduction modulo 2^16. */
  function ToU16(v: int): (r: U16)
    ensures 0 <= v < 0x1_0000 ==> r == v
    ensures (r - v) % 0x1_0000 == 0
  {
    v % 0x1_0000
  }

  /** The implicit conversion of an int to uint32_t, as in comparing it with a serial number. */
  function ToU32(v: int): (r: U32)
    ensures 0 <= v < 0x1_0000_0000 ==> r == v
    ensures (r - v) % 0x1_0000_0000 == 0
  {
    v % 0x1_0000_0000
  }

  // ---------------------------------------------------------------------
  // The preferred inputs.

  /** Every live display's id is a key, and every key is a live display's id. */
  predicate CoversDisplays(m: DisplayMap, displays: seq<Display>)
  {
    Ascending(m)
    && (forall d :: d in displays ==> HasKey(m, d.id))
    && (forall i :: 0 <= i < |m| ==> exists d :: d in displays && d.id == m[i].key)
  }

  /** The starting map: each live display's current input, later displays with the same key winning. */
  function CurrentInputs(displays: seq<Display>): (m: DisplayMap)
    ensures CoversDisplays(m, displays)
    ensures forall d :: d in displays ==> Lookup(m, d.id).Some?
  {
    if displays == [] then []
    else
      var init := displays[..|displays| - 1];
      var d := displays[|displays| - 1];
      var p := CurrentInputs(init);
      assert displays == init + [d];
      PutCovers(p, init, d);
      Put(p, d.id, d.input)
  }

  /** Storing one more display's input covers that display too. */
  lemma PutCovers(p: DisplayMap, init: seq<Display>, d: Display)
    requires CoversDisplays(p, init)
    ensures CoversDisplays(Put(p, d.id, d.input), init + [d])
    ensures forall e :: e in init + [d] ==> Lookup(Put(p, d.id, d.input), e.id).Some?
  {
    var m := Put(p, d.id, d.input);
    var displays := init + [d];
    forall e | e in displays ensures HasKey(m, e.id) && Lookup(m, e.id).Some? {
      LookupPut(p, d.id, d.input, e.id);
    }
    forall i | 0 <= i < |m| ensures exists e :: e in displays && e.id == m[i].key {
      assert HasKey(m, m[i].key);
      if m[i].key != d.id {
        var j :| 0 <= j < |p| && p[j].key == m[i].key;
        var e :| e in init && e.id == p[j].key;
        assert e in displays;
      }
    }
  }

  /** Some live display has this serial number. */
  predicate AnyWithSerial(displays: seq<Display>, serial: U32)
  {
    exists d :: d in displays && d.id.serial == serial
  }

  /** `--preferred-input`: every live display with the serial gets the input. */
  function Prefer(m: DisplayMap, displays: seq<Display>, serial: U32, input: Input): (r: DisplayMap)
    requires Ascending(m)
    ensures Ascending(r)
    ensures forall d :: d in displays && d.id.serial == serial ==> Lookup(r, d.id) == Some(input)
    ensures forall k :: (forall d :: d in displays && d.id.serial == serial ==> d.id != k) ==> Lookup(r, k) == Lookup(m, k)
  {
    if displays == [] then m
    else
      var init := displays[..|displays| - 1];
      var d := displays[|displays| - 1];
      assert displays == init + [d];
      var p := Prefer(m, init, serial, input);
      if d.id.serial == serial then
        forall k ensures Lookup(Put(p, d.id, input), k) == if k == d.id then Some(input) else Lookup(p, k) {
          LookupPut(p, d.id, input, k);
        }
        Put(p, d.id, input)
      else p
  }

  /** Preferring an input keeps the keys exactly the live displays' ids. */
  lemma PreferCovers(m: DisplayMap, displays: seq<Display>, serial: U32, input: Input)
    requires CoversDisplays(m, displays)
    ensures CoversDisplays(Prefer(m, displays, serial, input), displays)
  {
    var r := Prefer(m, displays, serial, input);
    forall d | d in displays ensures HasKey(r, d.id) {
      assert HasKey(m, d.id);
      assert Lookup(m, d.id).Some?;
    }
    forall i | 0 <= i < |r| ensures exists d :: d in displays && d.id == r[i].key {
      var k := r[i].key;
      assert Lookup(r, k).Some?;
      if forall d :: d in displays && d.id.serial == serial ==> d.id != k {
        assert Lookup(m, k).Some?;
        var j :| 0 <= j < |m| && m[j].key == k;
      }
    }
  }

  // ---------------------------------------------------------------------
  // The argument loop.

  /** The options before the first argument is looked at. */
  function Initial(displays: seq<Display>): Options
  {
    Options(Watch, DEFAULT_PORT, None, None, CurrentInputs(displays), [])
  }

  /** After the loop: both ids must have been given. */
  function Finish(o: Options): (r: Result<Options, Rejection>)
    ensures r.FromValue? <==> o.vendor.Some? && o.product.Some?
  {
    if o.vendor.None? then FromError(MissingVendor)
    else if o.product.None? then FromError(MissingProduct)
    else FromValue(o)
  }

  /**
   * The loop from argument `i` on. A flag whose value is missing, and any
   * word the loop does not know, is skipped.
   */
  function ParseFrom(args: seq<string>, i: nat, o: Options, displays: seq<Display>, toInput: string -> Input): (r: Result<Options, Rejection>)
    requires i <= |args|
    requires Ascending(o.inputs)
    ensures r.FromValue? ==> r.value.mode == ListDevices || (r.value.vendor.Some? && r.value.product.Some?)
    ensures r.FromValue? ==> o.nodes <= r.value.nodes
    ensures r.FromError? && r.error.DisplayNotFound? ==> !AnyWithSerial(displays, r.error.serial)
    decreases |args| - i
  {
    if i == |args| then Finish(o)
    else if args[i] == "--list-devices" then FromValue(o.(mode := ListDevices))
    else if args[i] == "--port" && i + 1 < |args| then
      ParseFrom(args, i + 2, o.(port := ToU16(Atoi(args[i + 1]))), displays, toInput)
    else if args[i] == "--vendor" && i + 1 < |args| then
      ParseFrom(args, i + 2, o.(vendor := Some(ToU16(Atoi(args[i + 1])))), displays, toInput)
    else if args[i] == "--product" && i + 1 < |args| then
      ParseFrom(args, i + 2, o.(product := Some(ToU16(Atoi(args[i + 1])))), displays, toInput)
    else if args[i] == "--preferred-input" && i + 2 < |args| then
      var serial := ToU32(Atoi(args[i + 1]));
      var input := toInput(args[i + 2]);
      if !AnyWithSerial(displays, serial) then FromError(DisplayNotFound(serial))
      else ParseFrom(args, i + 3, o.(inputs := Prefer(o.inputs, displays, serial, input)), displays, toInput)
    else if args[i] == "--node" && i + 1 < |args| then
      ParseFrom(args, i + 2, o.(nodes := o.nodes + [args[i + 1]]), displays, toInput)
    else ParseFrom(args, i + 1, o, displays, toInput)
  }

  /** ParseOptions over argv, whose first word is the program's name. */
  function Parse(args: seq<string>, displays: seq<Display>, toInput: string -> Input): (r: Result<Options, Rejection>)
    requires |args| >= 1
    ensures r.FromValue? ==> r.value.mode == ListDevices || (r.value.vendor.Some? && r.value.product.Some?)
    ensures r.FromValue? ==> NodesFromFlags(args, 1, r.value.nodes, 0)
    ensures r.FromValue? ==> r.value.nodes == WordsAt(args, NodeValuePositions(args, 1))
    ensures r.FromError? && r.error.DisplayNotFound? ==> !AnyWithSerial(displays, r.error.serial)
  {
    ParsedOptionsAreComplete(args, 1, Initial(displays), displays, toInput);
    ParsedPeersAreNodeValues(args, 1, Initial(displays), displays, toInput);
    ParseFrom(args, 1, Initial(displays), displays, toInput)
  }

  /**
   * Where the `--node` values the argument loop reaches from word `i` sit in
   * `args`: the loop stops at `--list-devices` and steps over the values of
   * the other flags, so these are exactly the words it appends as peers.
   */
  function NodeValuePositions(args: seq<string>, i: nat): (ps: seq<nat>)
    requires i <= |args|
    ensures forall k :: 0 <= k < |ps| ==> i < ps[k] < |args| && args[ps[k] - 1] == "--node"
    ensures forall k, l :: 0 <= k < l < |ps| ==> ps[k] < ps[l]
    decreases |args| - i
  {
    if i == |args| || args[i] == "--list-devices" then []
    else if (args[i] == "--port" || args[i] == "--vendor" || args[i] == "--product") && i + 1 < |args| then
      NodeValuePositions(args, i + 2)
    else if args[i] == "--preferred-input" && i + 2 < |args| then NodeValuePositions(args, i + 3)
    else if args[i] == "--node" && i + 1 < |args| then [i + 1] + NodeValuePositions(args, i + 2)
    else NodeValuePositions(args, i + 1)
  }

  /** The words of `args` at the positions `ps`, in that order. */
  function WordsAt(args: seq<string>, ps: seq<nat>): (ws: seq<string>)
    requires forall k :: 0 <= k < |ps| ==> ps[k] < |args|
    ensures |ws| == |ps| && forall k :: 0 <= k < |ps| ==> ws[k] == args[ps[k]]
  {
    seq(|ps|, k requires 0 <= k < |ps| => args[ps[k]])
  }

  /** `word` is the argument right after a `--node` flag beyond argument `i`. */
  predicate FollowsNodeFlag(args: seq<string>, i: nat, word: string)
  {
    exists j :: i < j < |args| && args[j - 1] == "--node" && args[j] == word
  }

  /** Every peer from position `from` of `nodes` on follows a `--node` flag beyond argument `i`. */
  predicate NodesFromFlags(args: seq<string>, i: nat, nodes: seq<string>, from: nat)
  {
    forall k :: from <= k < |nodes| ==> FollowsNodeFlag(args, i, nodes[k])
  }

  /**
   * What a successful parse promises: the preferred inputs name exactly the
   * live displays, and the peers are those given before plus words that
   * each follow a `--node` flag.
   */
  lemma {:induction false} ParsedOptionsAreComplete(args: seq<string>, i: nat, o: Options, displays: seq<Display>, toInput: string -> Input)
    requires i <= |args| && CoversDisplays(o.inputs, displays)
    ensures var r := ParseFrom(args, i, o, displays, toInput);
      r.FromValue? ==>
        (r.value.mode == ListDevices || (r.value.vendor.Some? && r.value.product.Some?))
        && CoversDisplays(r.value.inputs, displays)
        && NodesFromFlags(args, i, r.value.nodes, |o.nodes|)
    decreases |args| - i
  {
    if i < |args| && args[i] != "--list-devices" {
      var r := ParseFrom(args, i, o, displays, toInput);
      if args[i] == "--port" && i + 1 < |args| {
        ParsedOptionsAreComplete(args, i + 2, o.(port := ToU16(Atoi(args[i + 1]))), displays, toInput);
        NodesFromLaterFlags(args, i, i + 2, r, |o.nodes|);
      } else if args[i] == "--vendor" && i + 1 < |args| {
        ParsedOptionsAreComplete(args, i + 2, o.(vendor := Some(ToU16(Atoi(args[i + 1])))), displays, toInput);
        NodesFromLaterFlags(args, i, i + 2, r, |o.nodes|);
      } else if args[i] == "--product" && i + 1 < |args| {
        ParsedOptionsAreComplete(args, i + 2, o.(product := Some(ToU16(Atoi(args[i + 1])))), displays, toInput);
        NodesFromLaterFlags(args, i, i + 2, r, |o.nodes|);
      } else if args[i] == "--preferred-input" && i + 2 < |args| {
        var serial := ToU32(Atoi(args[i + 1]));
        PreferCovers(o.inputs, displays, serial, toInput(args[i + 2]));
        ParsedOptionsAreComplete(args, i + 3, o.(inputs := Prefer(o.inputs, displays, serial, toInput(args[i + 2]))), displays, toInput);
        NodesFromLaterFlags(args, i, i + 3, r, |o.nodes|);
      } else if args[i] == "--node" && i + 1 < |args| {
        ParsedOptionsAreComplete(args, i + 2, o.(nodes := o.nodes + [args[i + 1]]), displays, toInput);
        if r.FromValue? {
          NodeFlagAdds(args, i, o.nodes, r.value.nodes);
        }
      } else {
        ParsedOptionsAreComplete(args, i + 1, o, displays, toInput);
        NodesFromLaterFlags(args, i, i + 1, r, |o.nodes|);
      }
    }
  }

  /** A `--node` flag at `i` adds the word after it, and the peers drawn from later flags follow. */
  lemma NodeFlagAdds(args: seq<string>, i: nat, before: seq<string>, nodes: seq<string>)
    requires i + 1 < |args| && args[i] == "--node"
    requires before + [args[i + 1]] <= nodes
    requires NodesFromFlags(args, i + 2, nodes, |before| + 1)
    ensures NodesFromFlags(args, i, nodes, |before|)
  {
    forall k | |before| <= k < |nodes|
      ensures FollowsNodeFlag(args, i, nodes[k])
    {
      if k == |before| {
        assert (before + [args[i + 1]])[k] == args[i + 1];
        assert args[i] == "--node" && args[i + 1] == nodes[k];
      } else {
        assert FollowsNodeFlag(args, i + 2, nodes[k]);
        var j :| i + 2 < j < |args| && args[j - 1] == "--node" && args[j] == nodes[k];
      }
    }
  }

  /**
   * The peers of a successful parse are the ones given before followed by
   * every `--node` value the loop reaches, in argument order: none is lost,
   * reordered or added twice.
   */
  lemma {:induction false} ParsedPeersAreNodeValues(args: seq<string>, i: nat, o: Options, displays: seq<Display>, toInput: string -> Input)
    requires i <= |args| && Ascending(o.inputs)
    ensures var r := ParseFrom(args, i, o, displays, toInput);
      r.FromValue? ==> r.value.nodes == o.nodes + WordsAt(args, NodeValuePositions(args, i))
    decreases |args| - i
  {
    if i < |args| && args[i] != "--list-devices" {
      if (args[i] == "--port" || args[i] == "--vendor" || args[i] == "--product") && i + 1 < |args| {
        var o' := if args[i] == "--port" then o.(port := ToU16(Atoi(args[i + 1])))
          else if args[i] == "--vendor" then o.(vendor := Some(ToU16(Atoi(args[i + 1]))))
          else o.(product := Some(ToU16(Atoi(args[i + 1]))));
        assert ParseFrom(args, i, o, displays, toInput) == ParseFrom(args, i + 2, o', displays, toInput);
        ParsedPeersAreNodeValues(args, i + 2, o', displays, toInput);
      } else if args[i] == "--preferred-input" && i + 2 < |args| {
        var serial := ToU32(Atoi(args[i + 1]));
        var o' := o.(inputs := Prefer(o.inputs, displays, serial, toInput(args[i + 2])));
        ParsedPeersAreNodeValues(args, i + 3, o', displays, toInput);
      } else if args[i] == "--node" && i + 1 < |args| {
        var o' := o.(nodes := o.nodes + [args[i + 1]]);
        ParsedPeersAreNodeValues(args, i + 2, o', displays, toInput);
        WordsAtCons(args, i + 1, NodeValuePositions(args, i + 2));
      } else {
        ParsedPeersAreNodeValues(args, i + 1, o, displays, toInput);
      }
    }
  }

  /** Reading one more position in front reads its word in front. */
  lemma WordsAtCons(args: seq<string>, p: nat, ps: seq<nat>)
    requires p < |args| && forall k :: 0 <= k < |ps| ==> ps[k] < |args|
    ensures WordsAt(args, [p] + ps) == [args[p]] + WordsAt(args, ps)
  {
  }

  /** A peer drawn from a flag beyond a later argument is drawn from one beyond an earlier one. */
  lemma NodesFromLaterFlags(args: seq<string>, i: nat, later: nat, r: Result<Options, Rejection>, from: nat)
    requires i <= later
    requires r.FromValue? ==> NodesFromFlags(args, later, r.value.nodes, from)
    ensures r.FromValue? ==> NodesFromFlags(args, i, r.value.nodes, from)
  {
    if r.FromValue? {
      var nodes := r.value.nodes;
      forall k | from <= k < |nodes|
        ensures FollowsNodeFlag(args, i, nodes[k])
      {
        assert FollowsNodeFlag(args, later, nodes[k]);
        var j :| later < j < |args| && args[j - 1] == "--node" && args[j] == nodes[k];
      }
    }
  }

  /** Watching needs a trigger: without `--vendor` and `--product` the parse is refused. */
  lemma WatchNeedsTrigger(args: seq<string>, displays: seq<Display>, toInput: string -> Input)
    requires |args| >= 1
    ensures var r := Parse(args, displays, toInput);
      r.FromValue? ==>
        (r.value.mode == ListDevices || (r.value.vendor.Some? && r.value.product.Some?))
        && CoversDisplays(r.value.inputs, displays)
  {
    ParsedOptionsAreComplete(args, 1, Initial(displays), displays, toInput);
  }

  /** The usual invocation: the ids are read, the port is the default, and every display keeps its current input. */
  lemma TriggerInvocation(displays: seq<Display>, toInput: string -> Input)
    ensures Parse(["kvm", "--vendor", "1133", "--product", "49271"], displays, toInput)
      == FromValue(Options(Watch, DEFAULT_PORT, Some(1133), Some(49271), CurrentInputs(displays), []))
  {
    var o0 := Initial(displays);
    VendorFirst(displays, toInput, o0);
    ProductThenEnd(displays, toInput, o0.(vendor := Some(1133)));
  }

  /** The first half of the usual invocation. */
  lemma VendorFirst(displays: seq<Display>, toInput: string -> Input, o: Options)
    requires Ascending(o.inputs)
    ensures var args := ["kvm", "--vendor", "1133", "--product", "49271"];
      ParseFrom(args, 1, o, displays, toInput) == ParseFrom(args, 3, o.(vendor := Some(1133)), displays, toInput)
  {
    var args := ["kvm", "--vendor", "1133", "--product", "49271"];
    ParsesVendor(args, 1, o, displays, toInput);
    AtoiOf1133();
  }

  /** One `--port` flag and its value. */
  lemma ParsesPort(args: seq<string>, i: nat, o: Options, displays: seq<Display>, toInput: string -> Input)
    requires i + 1 < |args| && args[i] == "--port" && Ascending(o.inputs)
    ensures ParseFrom(args, i, o, displays, toInput)
      == ParseFrom(args, i + 2, o.(port := ToU16(Atoi(args[i + 1]))), displays, toInput)
  {
  }

  /** One `--vendor` flag and its value. */
  lemma ParsesVendor(args: seq<string>, i: nat, o: Options, displays: seq<Display>, toInput: string -> Input)
    requires i + 1 < |args| && args[i] == "--vendor" && Ascending(o.inputs)
    ensures ParseFrom(args, i, o, displays, toInput)
      == ParseFrom(args, i + 2, o.(vendor := Some(ToU16(Atoi(args[i + 1])))), displays, toInput)
  {
  }

  /** The second half of the usual invocation. */
  lemma ProductThenEnd(displays: seq<Display>, toInput: string -> Input, o: Options)
    requires Ascending(o.inputs) && o.vendor.Some?
    ensures ParseFrom(["kvm", "--vendor", "1133", "--product", "49271"], 3, o, displays, toInput)
      == FromValue(o.(product := Some(49271)))
  {
    var args := ["kvm", "--vendor", "1133", "--product", "49271"];
    ParsesProduct(args, 3, o, displays, toInput);
    AtoiOf49271();
  }

  /** One `--product` flag and its value. */
  lemma ParsesProduct(args: seq<string>, i: nat, o: Options, displays: seq<Display>, toInput: string -> Input)
    requires i + 1 < |args| && args[i] == "--product" && Ascending(o.inputs)
    ensures ParseFrom(args, i, o, displays, toInput)
      == ParseFrom(args, i + 2, o.(product := Some(ToU16(Atoi(args[i + 1])))), displays, toInput)
  {
  }

  /** atoi reads the spelling "1133" as 1133. */
  lemma AtoiOf1133()
    ensures Atoi("1133") == 1133 && ToU16(Atoi("1133")) == 1133
  {
    assert Show(1) == "1";
    assert Show(11) == "11";
    assert Show(113) == "113";
    assert Show(1133) == "1133";
    AtoiShow(1133);
  }

  /** atoi reads the spelling "49271" as 49271. */
  lemma AtoiOf49271()
    ensures Atoi("49271") == 49271 && ToU16(Atoi("49271")) == 49271
  {
    assert Show(4) == "4";
    assert Show(49) == "49";
    assert Show(492) == "492";
    assert Show(4927) == "4927";
    assert Show(49271) == "49271";
    AtoiShow(49271);
  }

  /** atoi reads the spelling "70000" as 70000. */
  lemma AtoiOf70000()
    ensures Atoi("70000") == 70000 && ToU16(Atoi("70000")) == 4464
  {
    assert Show(7) == "7";
    assert Show(70) == "70";
    assert Show(700) == "700";
    assert Show(7000) == "7000";
    assert Show(70000) == "70000";
    AtoiShow(70000);
    Wraps70000();
  }

  /** 70000 does not fit in 16 bits and wraps to 4464. */
  lemma Wraps70000()
    ensures ToU16(70000) == 4464
  {
  }

  /** A port beyond 16 bits wraps around: 70000 becomes 70000 - 65536. */
  lemma WidePortWraps(displays: seq<Display>, toInput: string -> Input)
    ensures var r := Parse(["kvm", "--port", "70000", "--list-devices"], displays, toInput);
      r.FromValue? && r.value.port == 4464 && r.value.mode == ListDevices
  {
    PortThenList(displays, toInput, Initial(displays));
  }

  lemma PortThenList(displays: seq<Display>, toInput: string -> Input, o: Options)
    requires Ascending(o.inputs)
    ensures ParseFrom(["kvm", "--port", "70000", "--list-devices"], 1, o, displays, toInput) == FromValue(o.(port := 4464, mode := ListDevices))
  {
    var args := ["kvm", "--port", "70000", "--list-devices"];
    ParsesPort(args, 1, o, displays, toInput);
    AtoiOf70000();
    assert ParseFrom(args, 3, o.(port := 4464), displays, toInput) == FromValue(o.(port := 4464, mode := ListDevices));
  }

  // ---------------------------------------------------------------------
  // The parser as the program runs it.

  /** The starting map, built by the program's loop over the live displays. */
  method ReadCurrentInputs(displays: seq<Display>) returns (inputs: DisplayMap)
    ensures inputs == CurrentInputs(displays)
  {
    inputs := [];
    var j := 0;
    while j < |displays|
      invariant 0 <= j <= |displays|
      invariant inputs == CurrentInputs(displays[..j])
    {
      assert displays[..j + 1][..j] == displays[..j];
      inputs := Put(inputs, displays[j].id, displays[j].input);
      j := j + 1;
    }
    assert displays[..j] == displays;
  }

  /** The inner loop of `--preferred-input`: set the input of each display with the serial, noting whether any was found. */
  method PreferSerial(inputs: DisplayMap, displays: seq<Display>, serial: U32, input: Input) returns (found: bool, updated: DisplayMap)
    requires Ascending(inputs)
    ensures found <==> AnyWithSerial(displays, serial)
    ensures updated == Prefer(inputs, displays, serial, input)
  {
    found := false;
    updated := inputs;
    var k := 0;
    while k < |displays|
      invariant 0 <= k <= |displays|
      invariant updated == Prefer(inputs, displays[..k], serial, input)
      invariant found <==> AnyWithSerial(displays[..k], serial)
    {
      assert displays[..k + 1] == displays[..k] + [displays[k]];
      if displays[k].id.serial == serial {
        updated := Put(updated, displays[k].id, input);
        found := true;
      }
      k := k + 1;
    }
    assert displays[..k] == displays;
  }

  /**
   * One pass of the argument loop at word `i`: either the parse ends here
   * (`done`), or it goes on at word `next` with the updated options.
   */
  method Step(args: seq<string>, i: nat, o: Options, displays: seq<Display>, toInput: string -> Input)
    returns (done: Option<Result<Options, Rejection>>, next: nat, o': Options)
    requires i < |args| && Ascending(o.inputs)
    ensures done.None? ==>
      (i < next <= |args| && Ascending(o'.inputs)
       && ParseFrom(args, i, o, displays, toInput) == ParseFrom(args, next, o', displays, toInput))
    ensures done.Some? ==> ParseFrom(args, i, o, displays, toInput) == done.value
  {
    done, next, o' := None, i + 1, o;
    if args[i] == "--list-devices" {
      done := Some(FromValue(o.(mode := ListDevices)));
      return;
    }
    if args[i] == "--port" && i + 1 < |args| {
      next := i + 2;
      o' := o.(port := ToU16(Atoi(args[i + 1])));
    } else if args[i] == "--vendor" && i + 1 < |args| {
      next := i + 2;
      o' := o.(vendor := Some(ToU16(Atoi(args[i + 1]))));
    } else if args[i] == "--product" && i + 1 < |args| {
      next := i + 2;
      o' := o.(product := Some(ToU16(Atoi(args[i + 1]))));
    } else if args[i] == "--preferred-input" && i + 2 < |args| {
      var serial := ToU32(Atoi(args[i + 1]));
      var input := toInput(args[i + 2]);
      var found, updated := PreferSerial(o.inputs, displays, serial, input);
      if !found {
        done := Some(FromError(DisplayNotFound(serial)));
        return;
      }
      next := i + 3;
      o' := o.(inputs := updated);
    } else if args[i] == "--node" && i + 1 < |args| {
      next := i + 2;
      o' := o.(nodes := o.nodes + [args[i + 1]]);
    }
  }

  /** ParseOptions: the argument loop, with its early returns. */
  method ParseOptions(args: seq<string>, displays: seq<Display>, toInput: string -> Input) returns (r: Result<Options, Rejection>)
    requires |args| >= 1
    ensures r == Parse(args, displays, toInput)
  {
    var inputs := ReadCurrentInputs(displays);
    var o := Options(Watch, DEFAULT_PORT, None, None, inputs, []);
    var i := 1;
    while i < |args|
      invariant 1 <= i <= |args|
      invariant Ascending(o.inputs)
      invariant ParseFrom(args, i, o, displays, toInput) == Parse(args, displays, toInput)
      decreases |args| - i
    {
      var done;
      done, i, o := Step(args, i, o, displays, toInput);
      if done.Some? {
        return done.value;
      }
    }
    r := Finish(o);
  }
}
