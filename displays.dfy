/**
 * Displays: the input-source codes a monitor can be switched to, their
 * human-readable names, and the identity key (manufacturer, product, serial)
 * under which a monitor is known to every peer.
 */
module Displays {
  import opened Bytes

  /** Display::Input, an enum class over uint8_t: any byte can be cast to it. */
  type Input = Byte

  const UNKNOWN: Input := 0
  const VGA1: Input := 1
  const VGA2: Input := 2
  const DVI1: Input := 3
  const DVI2: Input := 4
  const DP1: Input := 15
  const DP2: Input := 16
  const HDMI1: Input := 17
  const HDMI2: Input := 18

  /** The inputs that InputToString knows by name; HDMI is not among them. */
  predicate HasName(input: Input)
  {
    input == VGA1 || input == VGA2 || input == DVI1 || input == DVI2 || input == DP1 || input == DP2
  }

  /** Display::InputToString: a switch over the six named inputs with "Unknown" as the default. */
  function InputToString(input: Input): (name: string)
    ensures name == "Unknown" <==> !HasName(input)
    ensures HasName(input) ==> |name| == 5 || |name| == 4
  {
    match input
    case 1 => "VGA 1"
    case 2 => "VGA 2"
    case 3 => "DVI 1"
    case 4 => "DVI 2"
    case 15 => "DP 1"
    case 16 => "DP 2"
    case _ => "Unknown"
  }

  /** Distinct named inputs get distinct names, so a name identifies its input. */
  lemma InputNamesDistinct(a: Input, b: Input)
    requires HasName(a) && HasName(b) && a != b
    ensures InputToString(a) != InputToString(b)
  {
  }

  /** The three ASCII letters of a manufacturer code. */
  type Manufacturer = s: seq<Byte> | |s| == 3 witness [0, 0, 0]

  /**
   * The identity of a physical monitor. Two identities are equal iff all
   * three fields are; the order below is used only to iterate maps in a
   * deterministic order.
   */
  datatype DisplayId = DisplayId(manufacturer: Manufacturer, product: U16, serial: U32)

  /** Strict lexicographic order over two manufacturer codes. */
  predicate ManufacturerLess(a: Manufacturer, b: Manufacturer)
  {
    a[0] < b[0] || (a[0] == b[0] && (a[1] < b[1] || (a[1] == b[1] && a[2] < b[2])))
  }

  /** Strict lexicographic order over (manufacturer, product, serial): the std::map key order. */
  predicate Less(a: DisplayId, b: DisplayId)
  {
    ManufacturerLess(a.manufacturer, b.manufacturer)
    || (a.manufacturer == b.manufacturer
        && (a.product < b.product || (a.product == b.product && a.serial < b.serial)))
  }

  /** The key order is a strict total order: irreflexive, transitive and total. */
  lemma LessIsStrictTotalOrder(a: DisplayId, b: DisplayId, c: DisplayId)
    ensures !Less(a, a)
    ensures Less(a, b) && Less(b, c) ==> Less(a, c)
    ensures a != b ==> Less(a, b) || Less(b, a)
    ensures !(Less(a, b) && Less(b, a))
  {
    if a != b && !ManufacturerLess(a.manufacturer, b.manufacturer) && !ManufacturerLess(b.manufacturer, a.manufacturer) {
      assert a.manufacturer == b.manufacturer;
    }
  }

  /** The fixed-width wire form of a display key: 3 letters, product big-endian, serial big-endian. */
  function EncodeDisplayId(id: DisplayId): (bytes: seq<Byte>)
    ensures |bytes| == DISPLAY_ID_SIZE
  {
    id.manufacturer + Be16(id.product) + Be32(id.serial)
  }

  const DISPLAY_ID_SIZE: nat := 9

  /** The display key whose wire form is `bytes`. */
  function DecodeDisplayId(bytes: seq<Byte>): (id: DisplayId)
    requires |bytes| == DISPLAY_ID_SIZE
    ensures EncodeDisplayId(id) == bytes
  {
    FromBe32Inverse(bytes[5..9]);
    var id := DisplayId(bytes[..3], FromBe16(bytes[3..5]), FromBe32(bytes[5..9]));
    assert EncodeDisplayId(id) == bytes[..3] + bytes[3..5] + bytes[5..9];
    assert bytes == bytes[..3] + bytes[3..5] + bytes[5..9];
    id
  }

  /** Encoding is injective: decoding the wire form gives the same key back. */
  lemma DisplayIdRoundTrip(id: DisplayId)
    ensures DecodeDisplayId(EncodeDisplayId(id)) == id
  {
    var bytes := EncodeDisplayId(id);
    var back := DecodeDisplayId(bytes);
    assert bytes[..3] == id.manufacturer;
    assert bytes[3..5] == Be16(id.product);
    assert bytes[5..9] == Be32(id.serial);
    assert back.product == FromBe16(Be16(id.product));
    assert Be16(back.product) == Be16(id.product);
  }

  /**
   * A monitor as enumerated at one moment: its identity, its name, and the
   * input it reported when queried (GetInput is an oracle of the platform
   * layer, so the model takes a snapshot).
   */
  datatype Display = Display(id: DisplayId, name: string, input: Input) {

    /** GetInputAsString: the name of the stored input. */
    function GetInputAsString(): (name: string)
      ensures name == "Unknown" <==> !HasName(input)
      ensures name == InputToString(input)
    {
      InputToString(input)
    }
  }
}
