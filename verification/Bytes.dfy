/** Octets, 16-bit numbers, byte order, and the few generic datatypes the other modules share. */
module Bytes {
  type byte = b: int | 0 <= b < 0x100
  type uint16 = n: int | 0 <= n < 0x1_0000
  type uint32 = n: int | 0 <= n < 0x1_0000_0000

  datatype Option<+T> = None | Some(value: T)

  /** A yes-or-no call that may also never return. */
  datatype Answer = True | False | NoReturn

  /** The bytes of an integer as a little-endian machine (the only platform of the program) holds them. */
  function Memory16(n: uint16): seq<byte> {
    [n % 0x100, n / 0x100]
  }

  function Memory32(n: uint32): seq<byte> {
    [n % 0x100, n / 0x100 % 0x100, n / 0x1_0000 % 0x100, n / 0x100_0000]
  }

  /** A 16-bit load from memory on the same machine. */
  function Load16(lo: byte, hi: byte): uint16 {
    hi * 0x100 + lo
  }

  function Load32(b0: byte, b1: byte, b2: byte, b3: byte): uint32 {
    ((b3 * 0x100 + b2) * 0x100 + b1) * 0x100 + b0
  }

  /** `htons` and `htonl`: swap the bytes. */
  function Swap16(n: uint16): uint16 {
    n % 0x100 * 0x100 + n / 0x100
  }

  function Swap32(n: uint32): uint32 {
    ((n % 0x100 * 0x100 + n / 0x100 % 0x100) * 0x100 + n / 0x1_0000 % 0x100) * 0x100 + n / 0x100_0000
  }

  /** Most significant byte first: network order. */
  function Net16(n: uint16): seq<byte> {
    [n / 0x100, n % 0x100]
  }

  function FromNet16(hi: byte, lo: byte): uint16 {
    hi * 0x100 + lo
  }

  /** Octets seen as the characters of a C string, and back. */
  function Text(bs: seq<byte>): (s: string)
    ensures |s| == |bs|
    ensures forall i :: 0 <= i < |s| ==> s[i] == bs[i] as char
  {
    seq(|bs|, i requires 0 <= i < |bs| => bs[i] as char)
  }

  function Octets(s: string): (bs: seq<byte>)
    ensures |bs| == |s|
    ensures forall i :: 0 <= i < |s| ==> bs[i] == s[i] as int % 0x100
  {
    seq(|s|, i requires 0 <= i < |s| => s[i] as int % 0x100)
  }

  /** Concatenation of a list of byte strings. */
  function Flatten(parts: seq<seq<byte>>): seq<byte> {
    if parts == [] then [] else Flatten(parts[..|parts| - 1]) + parts[|parts| - 1]
  }

  lemma Halves<T>(a: seq<T>, b: seq<T>)
    ensures (a + b)[..|a|] == a && (a + b)[|a|..] == b
  {
  }

  lemma Assoc<T>(a: seq<T>, b: seq<T>, c: seq<T>)
    ensures a + b + c == a + (b + c)
  {
  }

  // ----- byte order -----

  /** A number stored after `htons` lies in memory in network order. */
  lemma SwappedInMemory16(n: uint16)
    ensures Memory16(Swap16(n)) == Net16(n)
  {
  }

  /** The value of four octets, the first one most significant: `address_v4::to_ulong`. */
  function Ulong(b0: byte, b1: byte, b2: byte, b3: byte): uint32 {
    ((b0 * 0x100 + b1) * 0x100 + b2) * 0x100 + b3
  }

  /** The octets of an address that is made of its value. */
  function BigEndian32(n: uint32): seq<byte> {
    [n / 0x100_0000, n / 0x1_0000 % 0x100, n / 0x100 % 0x100, n % 0x100]
  }

  lemma OctetsOf(b0: byte, b1: byte, b2: byte, b3: byte)
    ensures var n := Ulong(b0, b1, b2, b3);
            n / 0x100_0000 == b0 && n / 0x1_0000 % 0x100 == b1 && n / 0x100 % 0x100 == b2 && n % 0x100 == b3
  {
    var n: int := Ulong(b0, b1, b2, b3);
    assert n == b0 * 0x100_0000 + ((b1 * 0x100 + b2) * 0x100 + b3);
    assert n == (b0 * 0x100 + b1) * 0x1_0000 + (b2 * 0x100 + b3);
    assert n == ((b0 * 0x100 + b1) * 0x100 + b2) * 0x100 + b3;
    assert n / 0x1_0000 == b0 * 0x100 + b1;
    assert n / 0x100 == (b0 * 0x100 + b1) * 0x100 + b2;
  }

  lemma SwapIsReverse(b0: byte, b1: byte, b2: byte, b3: byte)
    ensures Swap32(Ulong(b0, b1, b2, b3)) == Ulong(b3, b2, b1, b0)
  {
    OctetsOf(b0, b1, b2, b3);
  }

  /** The octets of an address stored after `htonl` lie in memory in their order. */
  lemma SwappedInMemory32(b0: byte, b1: byte, b2: byte, b3: byte)
    ensures Memory32(Swap32(Ulong(b0, b1, b2, b3))) == [b0, b1, b2, b3]
  {
    SwapIsReverse(b0, b1, b2, b3);
    OctetsOf(b3, b2, b1, b0);
  }

  /** Loading and swapping is reading network order. */
  lemma LoadedAndSwapped(b0: byte, b1: byte, b2: byte, b3: byte)
    ensures Swap16(Load16(b0, b1)) == FromNet16(b0, b1)
    ensures BigEndian32(Swap32(Load32(b0, b1, b2, b3))) == [b0, b1, b2, b3]
  {
    hide Swap32;
    assert Load32(b0, b1, b2, b3) == Ulong(b3, b2, b1, b0);
    SwapIsReverse(b3, b2, b1, b0);
    OctetsOf(b0, b1, b2, b3);
  }

  /** Bytes are put in a buffer, behind the `got` bytes it has from `off` on. */
  method Fill(buf: array<byte>, off: nat, got: nat, chunk: seq<byte>)
    requires off + got + |chunk| <= buf.Length
    modifies buf
    ensures buf[..off] == old(buf[..off]) && buf[off..off + got + |chunk|] == old(buf[off..off + got]) + chunk
  {
    forall i | 0 <= i < |chunk| {
      buf[off + got + i] := chunk[i];
    }
  }

  /** A `std::string` that several objects refer to. */
  class StringCell {
    var bytes: seq<byte>

    constructor ()
      ensures bytes == []
    {
      bytes := [];
    }
  }
}
