/**
 * EDID: the identification block a monitor reports over DDC. The parser
 * keeps a private copy of the block and extracts four fields from it, each
 * getter failing (and leaving its output alone) when the block is too short:
 *
 *   bytes 8-9    manufacturer: three 5-bit letters, 'A' = 1, big-endian word
 *   bytes 10-11  product code, copied in host byte order
 *   bytes 12-15  serial number, copied in host byte order
 *   72, 90, 108  18-byte descriptors searched for the display name (tag FCh)
 *
 * The layout is that of section 3.4 of the VESA E-EDID standard (Release A,
 * Revision 2). Product and serial are little-endian in the block and are
 * copied as raw memory, so the model fixes a little-endian host.
 */
module Edids {
  import opened Bytes
  import opened Results
  import opened Displays

  // ---------------------------------------------------------------------
  // Manufacturer letters.

  /** A compressed-ASCII letter: 64 plus a 5-bit code ('@' for 0, 'A' for 1, ...). */
  predicate IsLetterCode(c: Byte)
  {
    64 <= c < 96
  }

  /**
   * GetManufacturerID: the word at bytes 8-9 in network order, cut into the
   * 5-bit fields 14..10, 9..5 and 4..0, each plus 64. Needs 10 bytes.
   */
  function ManufacturerOf(data: seq<Byte>): (r: Option<Manufacturer>)
    ensures r.Some? <==> |data| >= 10
    ensures r.Some? ==> IsLetterCode(r.value[0]) && IsLetterCode(r.value[1]) && IsLetterCode(r.value[2])
  {
    if |data| < 10 then None
    else
      var word := data[8] as int * 0x100 + data[9] as int;
      Some([(64 + word / 0x400 % 0x20) as Byte, (64 + word / 0x20 % 0x20) as Byte, (64 + word % 0x20) as Byte])
  }

  /** The two bytes a block stores for three letters (the reserved top bit clear). */
  function ManufacturerBytes(letters: Manufacturer): (bytes: seq<Byte>)
    requires IsLetterCode(letters[0]) && IsLetterCode(letters[1]) && IsLetterCode(letters[2])
    ensures |bytes| == 2 && bytes[0] < 0x80
  {
    var word := (letters[0] as int - 64) * 0x400 + (letters[1] as int - 64) * 0x20 + (letters[2] as int - 64);
    [(word / 0x100) as Byte, (word % 0x100) as Byte]
  }

  /** A 15-bit word cut into its three 5-bit fields and put back together. */
  lemma FiveBitFields(word: nat)
    requires word < 0x8000
    ensures word / 0x400 % 0x20 * 0x400 + word / 0x20 % 0x20 * 0x20 + word % 0x20 == word
  {
    var hi := word / 0x400;
    var mid := word % 0x400;
    assert word == hi * 0x400 + mid;
    assert hi < 0x20;
    assert word / 0x20 == hi * 0x20 + mid / 0x20;
    assert word % 0x20 == mid % 0x20;
  }

  /** Three 5-bit fields put together and cut apart again. */
  lemma FiveBitFieldsApart(a: nat, b: nat, c: nat)
    requires a < 0x20 && b < 0x20 && c < 0x20
    ensures var word := a * 0x400 + b * 0x20 + c;
            word / 0x400 % 0x20 == a && word / 0x20 % 0x20 == b && word % 0x20 == c
  {
    var word := a * 0x400 + b * 0x20 + c;
    assert word / 0x400 == a;
    assert word / 0x20 == a * 0x20 + b;
  }

  /** Writing three letters into a block and reading them back gives the same letters. */
  lemma ManufacturerRoundTrip(letters: Manufacturer, data: seq<Byte>)
    requires IsLetterCode(letters[0]) && IsLetterCode(letters[1]) && IsLetterCode(letters[2])
    requires |data| >= 10 && data[8..10] == ManufacturerBytes(letters)
    ensures ManufacturerOf(data) == Some(letters)
  {
    var a, b, c := letters[0] as int - 64, letters[1] as int - 64, letters[2] as int - 64;
    var word := a * 0x400 + b * 0x20 + c;
    assert data[8] == ManufacturerBytes(letters)[0] && data[9] == ManufacturerBytes(letters)[1];
    assert data[8] as int * 0x100 + data[9] as int == word;
    FiveBitFieldsApart(a, b, c);
    assert letters == [letters[0], letters[1], letters[2]];
  }

  /** The reserved top bit of byte 8 does not reach any of the three fields. */
  lemma FieldsIgnoreTopBit(h: nat, l: nat)
    requires h < 0x100 && l < 0x100
    ensures var full, word := h * 0x100 + l, (h % 0x80) * 0x100 + l;
            && full / 0x400 % 0x20 == word / 0x400 % 0x20
            && full / 0x20 % 0x20 == word / 0x20 % 0x20
            && full % 0x20 == word % 0x20
  {
    var word := (h % 0x80) * 0x100 + l;
    var top := h / 0x80;
    assert h * 0x100 + l == top * 0x8000 + word;
    assert (top * 0x8000 + word) / 0x400 == top * 0x20 + word / 0x400;
    assert (top * 0x8000 + word) / 0x20 == top * 0x400 + word / 0x20;
  }

  /**
   * Reading is the inverse of writing on every block: re-encoding the
   * letters read gives back bytes 8-9, except the reserved top bit, which
   * the parser ignores.
   */
  lemma ManufacturerOfInverse(data: seq<Byte>)
    requires |data| >= 10
    ensures ManufacturerBytes(ManufacturerOf(data).value) == [data[8] % 0x80, data[9]]
  {
    var h, l := data[8] as nat, data[9] as nat;
    var word := (h % 0x80) * 0x100 + l;
    FieldsIgnoreTopBit(h, l);
    FiveBitFields(word);
    var letters := ManufacturerOf(data).value;
    assert (letters[0] as int - 64) * 0x400 + (letters[1] as int - 64) * 0x20 + (letters[2] as int - 64) == word;
    assert word / 0x100 == h % 0x80 && word % 0x100 == l;
  }

  // ---------------------------------------------------------------------
  // Product code and serial number: raw copies on a little-endian host.

  /** Two bytes, least significant first. */
  function Le16(v: U16): (r: seq<Byte>)
    ensures |r| == 2 && r[0] as int + r[1] as int * 0x100 == v
  {
    [(v % 0x100) as Byte, (v / 0x100) as Byte]
  }

  /** Four bytes, least significant first. */
  function Le32(v: U32): (r: seq<Byte>)
    ensures |r| == 4 && r[0] as int + (r[1] as int + (r[2] as int + r[3] as int * 0x100) * 0x100) * 0x100 == v
  {
    var q1 := v / 0x100;
    var q2 := q1 / 0x100;
    [(v % 0x100) as Byte, (q1 % 0x100) as Byte, (q2 % 0x100) as Byte, (q2 / 0x100) as Byte]
  }

  /** GetProductID: bytes 10-11 as a 16-bit value; needs 12 bytes. */
  function ProductOf(data: seq<Byte>): (r: Option<U16>)
    ensures r.Some? <==> |data| >= 12
    ensures r.Some? ==> Le16(r.value) == data[10..12]
  {
    if |data| < 12 then None
    else
      var v := data[10] as int + data[11] as int * 0x100;
      ShiftIn(data[11] as nat, data[10]);
      Some(v)
  }

  /** GetSerialNumber: bytes 12-15 as a 32-bit value; needs 16 bytes. */
  function SerialOf(data: seq<Byte>): (r: Option<U32>)
    ensures r.Some? <==> |data| >= 16
    ensures r.Some? ==> Le32(r.value) == data[12..16]
  {
    if |data| < 16 then None
    else
      var hi := data[15] as int * 0x100 + data[14] as int;
      var mid := hi * 0x100 + data[13] as int;
      var v := mid * 0x100 + data[12] as int;
      ShiftIn(mid, data[12]);
      ShiftIn(hi, data[13]);
      ShiftIn(data[15] as nat, data[14]);
      Some(v)
  }

  /** A product code stored at bytes 10-11 is read back unchanged. */
  lemma ProductRoundTrip(v: U16, data: seq<Byte>)
    requires |data| >= 12 && data[10..12] == Le16(v)
    ensures ProductOf(data) == Some(v)
  {
    assert data[10] == Le16(v)[0] && data[11] == Le16(v)[1];
  }

  /** A serial number stored at bytes 12-15 is read back unchanged. */
  lemma SerialRoundTrip(v: U32, data: seq<Byte>)
    requires |data| >= 16 && data[12..16] == Le32(v)
    ensures SerialOf(data) == Some(v)
  {
    assert data[12] == Le32(v)[0] && data[13] == Le32(v)[1] && data[14] == Le32(v)[2] && data[15] == Le32(v)[3];
  }

  // ---------------------------------------------------------------------
  // Display name.

  const NEWLINE: Byte := 0x0A
  const SPACE: Byte := 0x20
  /** Display product name descriptor tag (section 3.10.3 of the E-EDID standard). */
  const NAME_TAG: Byte := 0xFC
  const DESCRIPTOR_SIZE: nat := 18
  /** The parser looks at the descriptors starting at 72, 90 and 108, and needs the block to reach 126. */
  const FIRST_SEARCHED: nat := 72
  const SEARCH_END: nat := 126
  const NAME_CAPACITY: nat := 13

  /** The longest prefix of `s` without `stop`: a copy loop that breaks at `stop`, or a C string cut at its NUL. */
  function TakeUntil(s: seq<Byte>, stop: Byte): (r: seq<Byte>)
    ensures |r| <= |s| && r == s[..|r|]
    ensures stop !in r
    ensures |r| < |s| ==> s[|r|] == stop
  {
    if s == [] || s[0] == stop then []
    else
      var rest := TakeUntil(s[1..], stop);
      assert [s[0]] + rest == s[..|rest| + 1];
      [s[0]] + rest
  }

  /** Any prefix free of `stop` and ending at `stop` (or at the end) is the one TakeUntil finds. */
  lemma TakeUntilIsUnique(s: seq<Byte>, stop: Byte, k: nat)
    requires k <= |s| && stop !in s[..k]
    requires k == |s| || s[k] == stop
    ensures TakeUntil(s, stop) == s[..k]
  {
  }

  /** A C string read from an array whose tail is zero stops no later than that tail. */
  lemma TakeUntilZeroPadding(p: seq<Byte>, n: nat)
    requires n > 0
    ensures TakeUntil(p + Zeros(n), 0) == TakeUntil(p, 0)
  {
    var q := TakeUntil(p, 0);
    var s := p + Zeros(n);
    assert s[..|q|] == q;
    assert s[|q|] == 0;
    TakeUntilIsUnique(s, 0, |q|);
  }

  /** The searched descriptor offsets are 72, 90 and 108. */
  predicate IsSearchedOffset(offset: nat)
  {
    FIRST_SEARCHED <= offset < SEARCH_END && offset % DESCRIPTOR_SIZE == 0
  }

  /** The name descriptor the search loop stops at: the first searched offset from `offset` on whose tag byte is FCh. */
  function NameDescriptorFrom(data: seq<Byte>, offset: nat): (r: Option<nat>)
    requires |data| >= SEARCH_END && offset % DESCRIPTOR_SIZE == 0 && offset >= FIRST_SEARCHED
    ensures r.Some? ==> IsSearchedOffset(r.value) && offset <= r.value && data[r.value + 3] == NAME_TAG
    ensures r.Some? ==> forall o :: offset <= o < r.value && IsSearchedOffset(o) ==> data[o + 3] != NAME_TAG
    ensures r.None? ==> forall o :: offset <= o && IsSearchedOffset(o) ==> data[o + 3] != NAME_TAG
    decreases SEARCH_END - offset
  {
    if offset >= SEARCH_END then None
    else if data[offset + 3] == NAME_TAG then Some(offset)
    else
      var r := NameDescriptorFrom(data, offset + DESCRIPTOR_SIZE);
      assert forall o :: offset < o < offset + DESCRIPTOR_SIZE ==> !IsSearchedOffset(o);
      r
  }

  /** The 13 text bytes of the descriptor at `offset`. */
  function DescriptorText(data: seq<Byte>, offset: nat): (text: seq<Byte>)
    requires offset + DESCRIPTOR_SIZE <= |data|
    ensures |text| == NAME_CAPACITY
  {
    data[offset + 5 .. offset + DESCRIPTOR_SIZE]
  }

  /**
   * GetDisplayName: needs 126 bytes and a name descriptor among the three
   * searched. The name is the descriptor text up to its first newline, read
   * as a C string (so also cut at a NUL).
   */
  function DisplayNameOf(data: seq<Byte>): (name: Option<seq<Byte>>)
    ensures name.Some? <==> |data| >= SEARCH_END && exists o :: IsSearchedOffset(o) && data[o + 3] == NAME_TAG
    ensures name.Some? ==> |name.value| <= NAME_CAPACITY && NEWLINE !in name.value && 0 !in name.value
  {
    if |data| < SEARCH_END then None
    else match NameDescriptorFrom(data, FIRST_SEARCHED)
      case None => None
      case Some(o) => Some(TakeUntil(TakeUntil(DescriptorText(data, o), NEWLINE), 0))
  }

  /**
   * A display name descriptor as the standard lays it out: five header
   * bytes with tag FCh, up to 13 characters, then a newline and space
   * padding when the name is shorter.
   */
  function NameDescriptor(name: seq<Byte>): (d: seq<Byte>)
    requires |name| <= NAME_CAPACITY
    ensures |d| == DESCRIPTOR_SIZE && d[3] == NAME_TAG
  {
    [0, 0, 0, NAME_TAG, 0] + name
      + (if |name| < NAME_CAPACITY then [NEWLINE] + seq(NAME_CAPACITY - 1 - |name|, _ => SPACE) else [])
  }

  /**
   * A block whose first searched descriptor is a name descriptor yields that
   * name, whenever the name holds no newline and no NUL.
   */
  lemma DisplayNameRoundTrip(name: seq<Byte>, data: seq<Byte>)
    requires |name| <= NAME_CAPACITY && NEWLINE !in name && 0 !in name
    requires |data| >= SEARCH_END && data[FIRST_SEARCHED .. FIRST_SEARCHED + DESCRIPTOR_SIZE] == NameDescriptor(name)
    ensures DisplayNameOf(data) == Some(name)
  {
    var d := NameDescriptor(name);
    assert data[FIRST_SEARCHED + 3] == d[3];
    assert NameDescriptorFrom(data, FIRST_SEARCHED) == Some(FIRST_SEARCHED);
    var text := DescriptorText(data, FIRST_SEARCHED);
    assert text == d[5..];
    assert text[..|name|] == name;
    assert |name| < NAME_CAPACITY ==> text[|name|] == NEWLINE;
    assert name[..|name|] == name;
    TakeUntilIsUnique(text, NEWLINE, |name|);
    TakeUntilIsUnique(name, 0, |name|);
  }

  /** Only the first name descriptor counts: a second one later in the block is never read. */
  lemma FirstNameDescriptorWins(data: seq<Byte>, o: nat)
    requires |data| >= SEARCH_END && IsSearchedOffset(o) && data[o + 3] == NAME_TAG
    requires forall p: nat :: IsSearchedOffset(p) && p < o ==> data[p + 3] != NAME_TAG
    ensures DisplayNameOf(data) == Some(TakeUntil(TakeUntil(DescriptorText(data, o), NEWLINE), 0))
  {
    var r := NameDescriptorFrom(data, FIRST_SEARCHED);
    assert r.Some?;
    assert r.value == o;
  }

  /**
   * The copy loop of GetDisplayName: the descriptor text into a zeroed
   * 14-byte array until a newline or 13 bytes, then the array read as a
   * C string.
   */
  method CopyName(data: seq<Byte>, offset: nat) returns (name: seq<Byte>)
    requires offset + DESCRIPTOR_SIZE <= |data|
    ensures name == TakeUntil(TakeUntil(DescriptorText(data, offset), NEWLINE), 0)
  {
    var nameArray := new Byte[NAME_CAPACITY + 1](_ => 0);
    var charOffset := offset + 5;
    var arrayOffset := 0;
    while charOffset < offset + DESCRIPTOR_SIZE && data[charOffset] != NEWLINE
      invariant offset + 5 <= charOffset <= offset + DESCRIPTOR_SIZE
      invariant arrayOffset == charOffset - (offset + 5)
      invariant NEWLINE !in data[offset + 5 .. charOffset]
      invariant nameArray[..] == data[offset + 5 .. charOffset] + Zeros(NAME_CAPACITY + 1 - arrayOffset)
      decreases offset + DESCRIPTOR_SIZE - charOffset
    {
      nameArray[arrayOffset] := data[charOffset];
      assert data[offset + 5 .. charOffset + 1] == data[offset + 5 .. charOffset] + [data[charOffset]];
      charOffset, arrayOffset := charOffset + 1, arrayOffset + 1;
    }
    var text := DescriptorText(data, offset);
    assert text[..arrayOffset] == data[offset + 5 .. charOffset];
    TakeUntilIsUnique(text, NEWLINE, arrayOffset);
    TakeUntilZeroPadding(TakeUntil(text, NEWLINE), NAME_CAPACITY + 1 - arrayOffset);
    name := TakeUntil(nameArray[..], 0);
  }

  // ---------------------------------------------------------------------
  // The parser object.

  /** EDID: the parser, holding its own copy of the block (m_buffer and m_bufferSize together). */
  class Edid {
    var data: seq<Byte>

    /** EDID(): no data. */
    constructor ()
      ensures data == []
    {
      data := [];
    }

    /** EDID(buffer, size): SetData on an empty parser. */
    constructor FromBuffer(buffer: Option<seq<Byte>>, size: nat)
      requires buffer.Some? ==> size <= |buffer.value|
      ensures data == if buffer.Some? && size > 0 then buffer.value[..size] else []
    {
      data := [];
      new;
      SetData(buffer, size);
    }

    /**
     * SetData: drop the held block, then copy `size` bytes from `buffer`
     * when it is non-null and `size` is positive. Otherwise the parser is
     * left empty.
     */
    method SetData(buffer: Option<seq<Byte>>, size: nat)
      requires buffer.Some? ==> size <= |buffer.value|
      modifies this
      ensures data == if buffer.Some? && size > 0 then buffer.value[..size] else []
    {
      ResetData();
      if buffer.Some? && size > 0 {
        data := buffer.value[..size];
      }
    }

    /** ResetData: the held block is released and its size becomes 0. */
    method ResetData()
      modifies this
      ensures data == []
    {
      data := [];
    }

    /**
     * GetDisplayName: the search loop over the descriptors and the copy loop
     * into a zeroed 14-byte array, then the array read as a C string. On
     * failure `name` keeps the value passed in.
     */
    method GetDisplayName(prior: seq<Byte>) returns (found: bool, name: seq<Byte>)
      ensures found ==> DisplayNameOf(data) == Some(name)
      ensures !found ==> DisplayNameOf(data) == None && name == prior
    {
      found, name := false, prior;
      if |data| >= SEARCH_END {
        var offset := FIRST_SEARCHED;
        while offset < SEARCH_END
          invariant FIRST_SEARCHED <= offset <= SEARCH_END && offset % DESCRIPTOR_SIZE == 0
          invariant NameDescriptorFrom(data, offset) == NameDescriptorFrom(data, FIRST_SEARCHED)
          decreases SEARCH_END - offset
        {
          if data[offset + 3] == NAME_TAG {
            name := CopyName(data, offset);
            found := true;
            return;
          }
          offset := offset + DESCRIPTOR_SIZE;
        }
      }
    }
  }
}
