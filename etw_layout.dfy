/**
 * Layout of an etw trace descriptor (dt_etw_trace.h), for a 64-bit target.
 *
 * A descriptor is one allocation: a fixed header whose last member is the
 * one-byte placeholder `det_data`, followed by the data area.  The data area
 * holds the payload descriptor array at offset 0 and the NUL-terminated string
 * table right after it.
 */
module EtwLayout {

  /** Arguments of an etw_trace call before the payload tuples. */
  const CommonArgsCount: nat := 5
  const CommonArgsCountWithGroup: nat := 6
  /** Every payload is a (type, name, value) tuple. */
  const PayloadTupleCount: nat := 3

  /** sizeof (dt_etw_trace_payload_t): int, padding, size_t, char*. */
  const PayloadDescSize: nat := 24
  /** sizeof (dt_etw_trace_desc_t), det_data[1] and trailing padding included. */
  const DescHeaderSize: nat := 112
  /** Offset of det_data inside the header. */
  const DataOffset: nat := 104
  /** sizeof (det_data). */
  const DataPlaceholderSize: nat := 1

  /** DT_ETW_TRACE_PLARR_BSIZE */
  function PlArrBSize(plcount: nat): nat
  {
    plcount * PayloadDescSize
  }

  /** DT_ETW_TRACE_STRINGTAB_BSIZE: the table is counted in chars of one byte. */
  function StringTabBSize(stringTableSize: nat): nat
  {
    stringTableSize * 1
  }

  /** DT_ETW_TRACE_DATA_BSIZE */
  function DataBSize(plcount: nat, stringTableSize: nat): nat
  {
    StringTabBSize(stringTableSize) + PlArrBSize(plcount)
  }

  /** DT_ETW_TRACE_BSIZE */
  function BSize(plcount: nat, stringTableSize: nat): nat
  {
    DescHeaderSize - DataPlaceholderSize + DataBSize(plcount, stringTableSize)
  }

  /** DT_ETW_TRACE_PLARR_PTR, as an offset into det_data. */
  function PlArrOffset(plcount: nat): nat
  {
    0
  }

  /** DT_ETW_TRACE_STRINGTAB_PTR, as an offset into det_data. */
  function StringTabOffset(plcount: nat): nat
  {
    PlArrBSize(plcount)
  }

  /**
   * The payload array and the string table are disjoint, the table starts
   * exactly where the array ends, and together they fill the data area, which
   * itself ends exactly at the end of the allocation.
   */
  lemma RegionsPartitionData(plcount: nat, stringTableSize: nat)
    ensures PlArrOffset(plcount) == 0
    ensures PlArrOffset(plcount) + PlArrBSize(plcount) == StringTabOffset(plcount)
    ensures StringTabOffset(plcount) + StringTabBSize(stringTableSize) == DataBSize(plcount, stringTableSize)
    ensures DataOffset + DataBSize(plcount, stringTableSize) <= BSize(plcount, stringTableSize)
    ensures BSize(plcount, stringTableSize) - (DataOffset + DataBSize(plcount, stringTableSize)) < 8
    ensures PlArrBSize(plcount) == plcount * PayloadDescSize
    ensures StringTabBSize(stringTableSize) == stringTableSize
  {
  }

  /**
   * The payload entries are at 24-byte strides, each entry lies inside the
   * array, and no two entries overlap.
   */
  lemma PayloadEntriesDisjoint(plcount: nat, i: nat, j: nat)
    requires i < j < plcount
    ensures i * PayloadDescSize + PayloadDescSize <= j * PayloadDescSize
    ensures j * PayloadDescSize + PayloadDescSize <= PlArrBSize(plcount)
  {
    assert (j - i) * PayloadDescSize >= PayloadDescSize;
    assert (plcount - j) * PayloadDescSize >= PayloadDescSize;
  }
}
