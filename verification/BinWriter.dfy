/** `bin_writer`: integers and byte arrays appended to a string, or written to a fixed buffer. */
module BinWriting {
  import opened Bytes

  /** `size_t(-1)`. */
  const NO_LIMIT: nat := 0xFFFF_FFFF_FFFF_FFFF

  class BinWriter {
    var curPos: nat
    const maxToWrite: nat
    const str: StringCell?
    const raw: array?<byte>

    ghost predicate Valid()
      reads this, str, raw
    {
      && (str == null <==> raw != null)
      && (raw != null ==> maxToWrite <= raw.Length && maxToWrite != NO_LIMIT)
      && (maxToWrite != NO_LIMIT ==> curPos <= maxToWrite)
    }

    /** What has been written, behind whatever was in the string before. */
    ghost function Contents(): seq<byte>
      reads this, str, raw
      requires Valid()
    {
      if str != null then str.bytes else raw[..curPos]
    }

    constructor OnString(buf: StringCell)
      ensures Valid() && str == buf && maxToWrite == NO_LIMIT
    {
      curPos, str, raw, maxToWrite := 0, buf, null, NO_LIMIT;
    }

    constructor OnStringUpTo(buf: StringCell, max: nat)
      ensures Valid() && str == buf && maxToWrite == max && curPos == 0
    {
      curPos, str, raw, maxToWrite := 0, buf, null, max;
    }

    /** The memory has at least as many bytes as may be written. */
    constructor OnMemory(buf: array<byte>, max: nat)
      requires max <= buf.Length && max != NO_LIMIT
      ensures Valid() && str == null && raw == buf && maxToWrite == max && Contents() == []
    {
      curPos, str, raw, maxToWrite := 0, null, buf, max;
    }

    function SpaceLeft(): nat
      reads this, str, raw
      requires Valid()
    {
      if maxToWrite == NO_LIMIT then NO_LIMIT else maxToWrite - curPos
    }

    /** `_write_raw`: all of the bytes or none of them. */
    method WriteRaw(bytes: seq<byte>) returns (ok: bool)
      requires Valid() && |bytes| <= 0xFFFF_FFFF
      modifies this, str, raw
      ensures Valid() && (ok <==> |bytes| <= old(SpaceLeft()))
      ensures Contents() == old(Contents()) + (if ok then bytes else [])
      ensures curPos == old(curPos) + (if ok then |bytes| else 0)
      ensures raw != null ==> raw[curPos..] == old(raw[..])[curPos..]
    {
      if SpaceLeft() < |bytes| {
        return false;
      }
      if str != null {
        str.bytes := str.bytes + bytes;
      } else {
        forall i | 0 <= i < |bytes| {
          raw[curPos + i] := bytes[i];
        }
      }
      curPos := curPos + |bytes|;
      return true;
    }

    method WriteUint8(v: byte) returns (ok: bool)
      requires Valid()
      modifies this, str, raw
      ensures Valid() && (ok <==> 1 <= old(SpaceLeft()))
      ensures Contents() == old(Contents()) + (if ok then [v] else [])
    {
      ok := WriteRaw([v]);
    }

    /** `write_uint16` writes the bytes as they lie in memory. */
    method WriteUint16(v: uint16) returns (ok: bool)
      requires Valid()
      modifies this, str, raw
      ensures Valid() && (ok <==> 2 <= old(SpaceLeft()))
      ensures Contents() == old(Contents()) + (if ok then Memory16(v) else [])
    {
      ok := WriteRaw(Memory16(v));
    }

    method WriteUint32(v: uint32) returns (ok: bool)
      requires Valid()
      modifies this, str, raw
      ensures Valid() && (ok <==> 4 <= old(SpaceLeft()))
      ensures Contents() == old(Contents()) + (if ok then Memory32(v) else [])
    {
      ok := WriteRaw(Memory32(v));
    }

    /** `write_byte_array16`: the length and the bytes, or nothing at all. */
    method WriteByteArray16(bytes: seq<byte>) returns (ok: bool)
      requires Valid() && |bytes| <= 0xFFFF
      modifies this, str, raw
      ensures Valid() && (ok <==> 2 + |bytes| <= old(SpaceLeft()))
      ensures Contents() == old(Contents()) + (if ok then Memory16(|bytes|) + bytes else [])
    {
      if SpaceLeft() < |bytes| + 2 {
        return false;
      }
      var written := WriteRaw(Memory16(|bytes|));
      written := WriteRaw(bytes);
      Assoc(old(Contents()), Memory16(|bytes|), bytes);
      return true;
    }

    /** `write_byte_array`, with the length in 32 bits. */
    method WriteByteArray(bytes: seq<byte>) returns (ok: bool)
      requires Valid() && |bytes| <= 0xFFFF_FFFF
      modifies this, str, raw
      ensures Valid() && (ok <==> 4 + |bytes| <= old(SpaceLeft()))
      ensures Contents() == old(Contents()) + (if ok then Memory32(|bytes|) + bytes else [])
    {
      if SpaceLeft() < |bytes| + 4 {
        return false;
      }
      var written := WriteRaw(Memory32(|bytes|));
      written := WriteRaw(bytes);
      Assoc(old(Contents()), Memory32(|bytes|), bytes);
      return true;
    }
  }
}
