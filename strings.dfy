/**
 * WideStringToString: a wide string becomes a narrow one character by
 * character. Converting a wide character to `char` keeps its low eight bits
 * on the two's-complement targets the program builds for. A wide character
 * is 32 bits wide here (16 bits on Windows, where every value also fits).
 */
module Strings {
  import opened Bytes

  type WideChar = U32

  /** The narrowing conversion of one wide character. */
  function Narrow(w: WideChar): Byte
  {
    (w % 0x100) as Byte
  }

  /** The std::wstring overload: the string built from the wide string's character range. */
  function WideStringToString(input: seq<WideChar>): (r: seq<Byte>)
    ensures |r| == |input|
    ensures forall i :: 0 <= i < |input| ==> r[i] == Narrow(input[i])
  {
    if input == [] then [] else WideStringToString(input[..|input| - 1]) + [Narrow(input[|input| - 1])]
  }

  /** The characters of a NUL-terminated wide string stored in `memory`: everything before the first 0. */
  function Terminated(memory: seq<WideChar>): (s: seq<WideChar>)
    requires 0 in memory
    ensures 0 !in s && |s| < |memory| && memory[..|s|] == s && memory[|s|] == 0
  {
    if memory[0] == 0 then [] else [memory[0]] + Terminated(memory[1..])
  }

  /** The pointer overload: the string starting at the pointer runs up to its terminator, then converts as a wide string. */
  function WideStringFromPointer(memory: seq<WideChar>): (r: seq<Byte>)
    requires 0 in memory
    ensures |r| < |memory| && memory[|r|] == 0
    ensures forall i :: 0 <= i < |r| ==> memory[i] != 0 && r[i] == Narrow(memory[i])
  {
    WideStringToString(Terminated(memory))
  }

  /** The pointer overload agrees with the wide-string overload on a terminated string, whatever follows the terminator. */
  lemma PointerAgreesWithString(s: seq<WideChar>, after: seq<WideChar>)
    requires 0 !in s
    ensures WideStringFromPointer(s + [0] + after) == WideStringToString(s)
  {
    TerminatedOf(s, after);
  }

  /** The terminator search stops exactly at the end of a string with no NUL in it. */
  lemma {:induction false} TerminatedOf(s: seq<WideChar>, after: seq<WideChar>)
    requires 0 !in s
    ensures Terminated(s + [0] + after) == s
  {
    if s != [] {
      assert (s + [0] + after)[1..] == s[1..] + [0] + after;
      TerminatedOf(s[1..], after);
      assert s == [s[0]] + s[1..];
    }
  }

  /** Characters in the one-byte range survive the conversion: widening the result gives the input back. */
  lemma NarrowRoundTrip(input: seq<WideChar>)
    requires forall i :: 0 <= i < |input| ==> input[i] < 0x100
    ensures forall i :: 0 <= i < |input| ==> WideStringToString(input)[i] as WideChar == input[i]
  {
    var r := WideStringToString(input);
    forall i | 0 <= i < |input|
      ensures r[i] as WideChar == input[i]
    {
      assert r[i] == Narrow(input[i]);
    }
  }

  /** Wide characters that differ by a multiple of 256 narrow to the same byte, so the conversion loses them. */
  lemma NarrowingCollides(w: WideChar)
    requires w + 0x100 < 0x1_0000_0000
    ensures WideStringToString([w]) == WideStringToString([w + 0x100])
  {
  }
}
