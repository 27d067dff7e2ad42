/** The octets every component works on. */
module Bytes {
  type Byte = b: int | 0 <= b < 256
  type Word = seq<Byte>

  type Half = n: nat | n < 0x1_0000
  type Full = n: nat | n < 0x1_0000_0000

  function Flatten(segments: seq<Word>): Word
  {
    if segments == [] then [] else Flatten(segments[..|segments| - 1]) + segments[|segments| - 1]
  }

  /** A 16-bit integer in network byte order, read at offset i. */
  function Read16(s: Word, i: nat): (v: nat)
    requires i + 2 <= |s|
    ensures v < 0x1_0000
  {
    s[i] as int * 256 + s[i + 1]
  }

  /** A 32-bit integer in network byte order, read at offset i. */
  function Read32(s: Word, i: nat): (v: nat)
    requires i + 4 <= |s|
    ensures v < 0x1_0000_0000
  {
    Read16(s, i) * 0x1_0000 + Read16(s, i + 2)
  }

  function Write16(v: nat): (s: Word)
    requires v < 0x1_0000
    ensures |s| == 2 && Read16(s, 0) == v
  {
    [v / 256, v % 256]
  }

  function Write32(v: nat): (s: Word)
    requires v < 0x1_0000_0000
    ensures |s| == 4 && Read32(s, 0) == v
  {
    Write16(v / 0x1_0000) + Write16(v % 0x1_0000)
  }

  lemma WriteRead16(s: Word, i: nat)
    requires i + 2 <= |s|
    ensures Write16(Read16(s, i)) == s[i..i + 2]
  {
  }

  lemma WriteRead32(s: Word, i: nat)
    requires i + 4 <= |s|
    ensures Write32(Read32(s, i)) == s[i..i + 4]
  {
    var hi, lo := Read16(s, i), Read16(s, i + 2);
    assert (hi * 0x1_0000 + lo) / 0x1_0000 == hi && (hi * 0x1_0000 + lo) % 0x1_0000 == lo;
    WriteRead16(s, i);
    WriteRead16(s, i + 2);
  }
}
