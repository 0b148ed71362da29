/**
 * The etw wire-type registry (`_dt_etw_types` in dt_etw_trace.cpp): every
 * type name an etw_trace payload may use, the TraceLogging type it is written
 * as, the optional compile-time compatibility check and the optional run-time
 * value adder.  Also the argument nodes the checks inspect and the fields the
 * adders append to an event.
 */
module EtwTypes {
  import opened Wrappers

  /** Size of a pointer on the modelled (64-bit) target. */
  const PointerSize: nat := 8

  /** The C conversion of a uintmax_t or uint32_t to int: the low 32 bits, as a signed value. */
  function ToInt32(v: nat): (r: int)
    ensures -0x8000_0000 <= r < 0x8000_0000
    ensures r % 0x1_0000_0000 == v % 0x1_0000_0000
  {
    var lo := v % 0x1_0000_0000;
    if lo >= 0x8000_0000 then lo - 0x1_0000_0000 else lo
  }

  /** The TraceLogging dynamic types the registry refers to. */
  datatype TldType =
    | TypeNone | TypeInt8 | TypeUInt8 | TypeInt16 | TypeUInt16 | TypeInt32 | TypeUInt32
    | TypeInt64 | TypeUInt64 | TypeFloat | TypeDouble | TypeBool32 | TypeBinary | TypeGuid
    | TypeFileTime | TypeSystemTime | TypeSid | TypeHexInt32 | TypeHexInt64
    | TypeUtf16String | TypeMbcsString | TypeCountedUtf16String | TypeCountedMbcsString
    | TypeIntPtr | TypeUIntPtr | TypePointer | TypeChar16 | TypeChar8 | TypeBool8
    | TypeHexInt8 | TypeHexInt16 | TypePid | TypeTid | TypePort | TypeIPv4 | TypeIPv6
    | TypeSocketAddress | TypeUtf16Xml | TypeMbcsXml | TypeUtf16Json | TypeMbcsJson
    | TypeCountedUtf16Xml | TypeCountedMbcsXml | TypeCountedUtf16Json | TypeCountedMbcsJson
    | TypeWin32Error | TypeNTStatus | TypeHResult

  /** The compatibility checks: dt_etw_trace_{int,float,string,pointer}_check. */
  datatype Check =
    | IntCheck(width: nat)     // dt_etw_trace_int_check<T>, width = sizeof (T)
    | FloatCheck(width: nat)   // dt_etw_trace_float_check<T>
    | StringCheck              // dt_etw_trace_string_check
    | PointerCheck             // dt_etw_trace_pointer_check

  /** The value adders: dt_etw_trace_add_type<T>, _string_add, _pointer_add. */
  datatype Adder =
    | ScalarAdd(width: nat)
    | StringAdd
    | PointerAdd

  datatype TypeEntry = TypeEntry(name: string, tld: TldType, check: Option<Check>, add: Option<Adder>)

  /** What the compiler front end says about an argument's value. */
  datatype ValueClass = StringClass | IntegerClass | FloatClass | OtherClass

  /** A C string: no NUL before its end. */
  type CString = s: string | '\0' !in s

  /** A uintmax_t (dn_value) or uint64 value. */
  type U64 = x: nat | x < 0x1_0000_0000_0000_0000

  /**
   * One argument node of an etw_trace call: whether it is a variable
   * reference (DT_NODE_VAR), the class of its type (dt_node_is_string /
   * _is_integer / _is_float), its type size (dt_node_type_size), and its
   * literal payload (dn_string, dn_value).
   */
  datatype ArgNode = ArgNode(isVar: bool, cls: ValueClass, typeSize: nat, text: CString, value: U64)

  /** A field appended to a TraceLogging event builder. */
  datatype Field =
    | Value(name: string, tld: TldType, bytes: seq<bv8>)     // AddField + AddValue
    | Str(name: string, tld: TldType, bytes: seq<bv8>)       // AddField + AddString
    | Struct(name: string, members: seq<Field>)              // AddStruct and its members


  /**
   * A registry entry whose check admits values up to some width has an adder
   * of the same kind that dereferences at least that width.
   */
  predicate CheckAgreesWithAdder(e: TypeEntry)
  {
    e.check.Some? ==>
      && e.add.Some?
      && (e.add.value.StringAdd? <==> e.check.value.StringCheck?)
      && CheckWidth(e.check.value) <= AdderWidth(e.add.value)
  }

  const StructName: string := "etw_struct"

  /** The entries after the struct marker. */
  type PayloadEntry = e: TypeEntry | e.name != StructName && CheckAgreesWithAdder(e)
    witness TypeEntry("etw_binary", TypeBinary, None, None)

  /** INT_CHECK_AND_ADD_FUNCS(T), with sizeof (T) = w. */
  function IntEntry(name: string, t: TldType, w: nat): PayloadEntry
    requires name != StructName
  {
    TypeEntry(name, t, Some(IntCheck(w)), Some(ScalarAdd(w)))
  }

  /** FLOAT_CHECK_AND_ADD_FUNCS(T), with sizeof (T) = w. */
  function FloatEntry(name: string, t: TldType, w: nat): PayloadEntry
    requires name != StructName
  {
    TypeEntry(name, t, Some(FloatCheck(w)), Some(ScalarAdd(w)))
  }

  /** dt_etw_trace_string_check with dt_etw_trace_string_add. */
  function StringEntry(name: string, t: TldType): PayloadEntry
    requires name != StructName
  {
    TypeEntry(name, t, Some(StringCheck), Some(StringAdd))
  }

  /** dt_etw_trace_pointer_check with dt_etw_trace_pointer_add. */
  function PointerEntry(name: string, t: TldType): PayloadEntry
    requires name != StructName
  {
    TypeEntry(name, t, Some(PointerCheck), Some(PointerAdd))
  }

  /** A type with neither check nor adder (NULL, NULL). */
  function Unchecked(name: string, t: TldType): PayloadEntry
    requires name != StructName
  {
    TypeEntry(name, t, None, None)
  }

  /** The struct marker: an integer count that adds metadata but no value. */
  const StructEntry: TypeEntry := TypeEntry(StructName, TypeUInt32, Some(IntCheck(4)), None)

  /** `_dt_etw_types`, without its NULL end marker; "etw_struct" MUST be at index 0. */
  const Types: seq<TypeEntry> := [StructEntry] + PayloadTypes

  const PayloadTypes: seq<PayloadEntry> := [
    Unchecked("etw_widestring", TypeUtf16String),
    StringEntry("etw_string", TypeMbcsString),
    Unchecked("etw_utf16string", TypeUtf16String),
    StringEntry("etw_mbcsstring", TypeMbcsString),
    IntEntry("etw_int8", TypeInt8, 1),
    IntEntry("etw_uint8", TypeUInt8, 1),
    IntEntry("etw_int16", TypeInt16, 2),
    IntEntry("etw_uint16", TypeUInt16, 2),
    IntEntry("etw_int32", TypeInt32, 4),
    IntEntry("etw_uint32", TypeUInt32, 4),
    IntEntry("etw_int64", TypeInt64, 8),
    IntEntry("etw_uint64", TypeUInt64, 8),
    FloatEntry("etw_float", TypeFloat, 4),
    FloatEntry("etw_double", TypeDouble, 8),
    IntEntry("etw_bool32", TypeBool32, 4),
    Unchecked("etw_binary", TypeBinary),
    Unchecked("etw_guid", TypeGuid),
    Unchecked("etw_filetime", TypeFileTime),
    Unchecked("etw_systemtime", TypeSystemTime),
    Unchecked("etw_sid", TypeSid),
    IntEntry("etw_hexint32", TypeHexInt32, 4),
    IntEntry("etw_hexint64", TypeHexInt64, 8),
    Unchecked("etw_countedutf16string", TypeCountedUtf16String),
    Unchecked("etw_countedmbcsstring", TypeCountedMbcsString),
    PointerEntry("etw_intptr", TypeIntPtr),
    PointerEntry("etw_uintptr", TypeUIntPtr),
    PointerEntry("etw_pointer", TypePointer),
    IntEntry("etw_char16", TypeChar16, 2),
    IntEntry("etw_char8", TypeChar8, 1),
    IntEntry("etw_bool8", TypeBool8, 1),
    IntEntry("etw_hexint8", TypeHexInt8, 1),
    IntEntry("etw_hexint16", TypeHexInt16, 2),
    IntEntry("etw_pid", TypePid, 4),
    IntEntry("etw_tid", TypeTid, 4),
    Unchecked("etw_port", TypePort),
    Unchecked("etw_ipv4", TypeIPv4),
    Unchecked("etw_ipv6", TypeIPv6),
    Unchecked("etw_socketaddress", TypeSocketAddress),
    Unchecked("etw_utf16xml", TypeUtf16Xml),
    StringEntry("etw_mbcsxml", TypeMbcsXml),
    Unchecked("etw_utf16json", TypeUtf16Json),
    StringEntry("etw_mbcsjson", TypeMbcsJson),
    Unchecked("etw_countedutf16xml", TypeCountedUtf16Xml),
    Unchecked("etw_countedmbcsxml", TypeCountedMbcsXml),
    Unchecked("etw_countedutf16json", TypeCountedUtf16Json),
    Unchecked("etw_countedmbcsjson", TypeCountedMbcsJson),
    IntEntry("etw_win32error", TypeWin32Error, 4),
    IntEntry("etw_ntstatus", TypeNTStatus, 4),
    IntEntry("etw_hresult", TypeHResult, 4)
  ]

  /** Index of the struct marker; the builder and the emitter test for it. */
  const StructTypeIdx: nat := 0

  /**
   * A registry as the builder and the emitter rely on it: the struct marker
   * first, no other entry of that name, and every checked entry with an
   * adder that agrees with its check.  The specification functions below
   * take the registry as a parameter; `Types` is the one the source uses.
   */
  predicate WellFormed(reg: seq<TypeEntry>)
  {
    && |reg| >= 1
    && reg[StructTypeIdx] == StructEntry
    && forall i :: 0 < i < |reg| ==> reg[i].name != StructName && CheckAgreesWithAdder(reg[i])
  }

  /** The first index at or after `from` whose entry is called `name`, or -1. */
  function IndexFrom(reg: seq<TypeEntry>, name: string, from: nat): (r: int)
    requires from <= |reg|
    ensures -1 <= r < |reg|
    ensures r == -1 <==> forall j :: from <= j < |reg| ==> reg[j].name != name
    ensures r >= 0 ==> from <= r && reg[r].name == name
                       && forall j :: from <= j < r ==> reg[j].name != name
    decreases |reg| - from
  {
    if from == |reg| then -1
    else if reg[from].name == name then from
    else IndexFrom(reg, name, from + 1)
  }

  /** dt_etw_trace_type_lookup, as a function of the registry. */
  function IndexOf(reg: seq<TypeEntry>, name: string): (r: int)
    ensures -1 <= r < |reg|
    ensures r == -1 <==> forall j :: 0 <= j < |reg| ==> reg[j].name != name
    ensures r >= 0 ==> reg[r].name == name && forall j :: 0 <= j < r ==> reg[j].name != name
  {
    IndexFrom(reg, name, 0)
  }

  /**
   * dt_etw_trace_type_lookup: scan the table until the names match or the end
   * marker is reached.
   */
  method TypeLookup(name: string) returns (idx: int)
    ensures idx == IndexOf(Types, name)
    ensures idx == -1 <==> forall j :: 0 <= j < |Types| ==> Types[j].name != name
    ensures idx >= 0 ==> idx < |Types| && Types[idx].name == name
                         && forall j :: 0 <= j < idx ==> Types[j].name != name
  {
    var i := 0;
    while i < |Types| && Types[i].name != name
      invariant 0 <= i <= |Types|
      invariant forall j :: 0 <= j < i ==> Types[j].name != name
      invariant IndexFrom(Types, name, i) == IndexOf(Types, name)
    {
      i := i + 1;
    }
    idx := if i < |Types| then i else -1;
  }

  /** dt_etw_trace_type_name: count the entries, then index the table. */
  method TypeName(typeidx: nat) returns (r: Option<string>)
    ensures r.Some? <==> typeidx < |Types|
    ensures r.Some? ==> r.value == Types[typeidx].name
  {
    var size := 0;
    while size < |Types|
      invariant 0 <= size <= |Types|
    {
      size := size + 1;
    }
    r := if typeidx < size then Some(Types[typeidx].name) else None;
  }

  /** The result of running one compatibility check on a node: 0 or -1. */
  function RunCheck(c: Check, dnp: ArgNode): (r: int)
    ensures r == 0 || r == -1
    ensures r == 0 <==> match c
      case IntCheck(w) => dnp.typeSize <= w && dnp.cls == IntegerClass
      case FloatCheck(w) => dnp.typeSize <= w && dnp.cls in {FloatClass, IntegerClass}
      case StringCheck => dnp.cls == StringClass
      case PointerCheck => dnp.typeSize <= PointerSize && dnp.cls == IntegerClass
  {
    match c
    case IntCheck(w) =>
      if dnp.typeSize > w then -1 else if dnp.cls == IntegerClass then 0 else -1
    case FloatCheck(w) =>
      if dnp.typeSize > w then -1
      else if dnp.cls == FloatClass || dnp.cls == IntegerClass then 0 else -1
    case StringCheck =>
      if dnp.cls == StringClass then 0 else -1
    case PointerCheck =>
      if dnp.typeSize > PointerSize then -1 else if dnp.cls == IntegerClass then 0 else -1
  }

  /**
   * dt_etw_trace_type_compat: -1 for an index past the table, -2 for an
   * entry without a check, otherwise the check's own 0 / -1.
   */
  function TypeCompat(reg: seq<TypeEntry>, typeidx: nat, dnp: ArgNode): (r: int)
    ensures r in {0, -1, -2}
    ensures r == -1 <==> typeidx >= |reg| || (reg[typeidx].check.Some? && RunCheck(reg[typeidx].check.value, dnp) == -1)
    ensures r == -2 <==> typeidx < |reg| && reg[typeidx].check.None?
  {
    if typeidx >= |reg| then -1
    else match reg[typeidx].check
      case None => -2
      case Some(c) => RunCheck(c, dnp)
  }

  /** The C size of the value an adder dereferences. */
  function AdderWidth(a: Adder): nat
  {
    match a
    case ScalarAdd(w) => w
    case StringAdd => 0
    case PointerAdd => PointerSize
  }

  /** The width a check accepts a value node up to (strings have none). */
  function CheckWidth(c: Check): nat
  {
    match c
    case IntCheck(w) => w
    case FloatCheck(w) => w
    case StringCheck => 0
    case PointerCheck => PointerSize
  }

  /** Bytes [off, off + n) of the buffer; a byte past its end reads as 0. */
  function ReadBytes(buf: seq<bv8>, off: nat, n: nat): (r: seq<bv8>)
    ensures |r| == n
    ensures off + n <= |buf| ==> r == buf[off..off + n]
    ensures forall k :: 0 <= k < n && off + k >= |buf| ==> r[k] == 0
  {
    seq(n, k => if 0 <= off + k < |buf| then buf[off + k] else 0)
  }

  /** The bytes of the C string starting at `off`, stopping at a NUL or the buffer's end. */
  function ReadCString(buf: seq<bv8>, off: nat): (r: seq<bv8>)
    ensures 0 !in r
    ensures off + |r| <= |buf| || r == []
    ensures forall k :: 0 <= k < |r| ==> r[k] == buf[off + k]
    ensures off + |r| < |buf| ==> buf[off + |r|] == 0
    decreases |buf| - off
  {
    if off >= |buf| || buf[off] == 0 then []
    else [buf[off]] + ReadCString(buf, off + 1)
  }

  /**
   * Runs an adder on one record: None stands for the -1 return, in which case
   * nothing is added; otherwise the one field that AddField + AddValue (or
   * AddString) append.
   */
  function RunAdd(a: Adder, name: string, t: TldType, buf: seq<bv8>, off: nat, dataSize: nat): (r: Option<Field>)
    ensures r.None? <==> dataSize == 0 || (!a.StringAdd? && dataSize > AdderWidth(a))
    ensures r.Some? && !a.StringAdd? ==> r.value == Value(name, t, ReadBytes(buf, off, AdderWidth(a)))
    ensures r.Some? && a.StringAdd? ==> r.value == Str(name, t, ReadCString(buf, off))
  {
    match a
    case ScalarAdd(w) =>
      if dataSize == 0 || dataSize > w then None else Some(Value(name, t, ReadBytes(buf, off, w)))
    case StringAdd =>
      if dataSize == 0 then None else Some(Str(name, t, ReadCString(buf, off)))
    case PointerAdd =>
      // sizeof (void *) == sizeof (int32_t) is false on the modelled target
      if dataSize == 0 || dataSize > PointerSize then None
      else Some(Value(name, t, ReadBytes(buf, off, PointerSize)))
  }

  /** The source's registry has the shape the builder and the emitter rely on. */
  lemma TypesWellFormed()
    ensures WellFormed(Types)
  {
    forall i | 0 < i < |Types|
      ensures Types[i].name != StructName && CheckAgreesWithAdder(Types[i])
    {
      assert Types[i] == PayloadTypes[i - 1];
    }
  }

  /** "etw_struct" is entry 0, and only entry 0; it produces metadata but no value. */
  lemma {:induction false} StructIsIndexZero(reg: seq<TypeEntry>)
    requires WellFormed(reg)
    ensures IndexOf(reg, StructName) == StructTypeIdx
    ensures forall j :: StructTypeIdx < j < |reg| ==> IndexOf(reg, reg[j].name) != StructTypeIdx
    ensures reg[StructTypeIdx].add.None?
  {
    forall j | StructTypeIdx < j < |reg|
      ensures IndexOf(reg, reg[j].name) != StructTypeIdx
    {
      assert reg[j].name != StructName;
    }
  }

  /**
   * What passes the compile-time check can be added at run time: every
   * non-struct entry with a check has an adder, and a value of the checked
   * type size, when it reaches the adder as a record of that size, is never
   * rejected as oversized.
   */
  lemma CompatibleValuesAreAddable(reg: seq<TypeEntry>, typeidx: nat, dnp: ArgNode)
    requires WellFormed(reg)
    requires TypeCompat(reg, typeidx, dnp) == 0
    requires typeidx != StructTypeIdx
    ensures reg[typeidx].add.Some?
    ensures reg[typeidx].add.value.StringAdd? <==> reg[typeidx].check.value.StringCheck?
    ensures !reg[typeidx].add.value.StringAdd? ==> dnp.typeSize <= AdderWidth(reg[typeidx].add.value)
  {
  }

  /** The float check also admits integer values, the integer check does not admit floats. */
  lemma FloatCheckAcceptsIntegers(w: nat, dnp: ArgNode)
    requires dnp.typeSize <= w
    ensures dnp.cls == IntegerClass ==> RunCheck(FloatCheck(w), dnp) == 0 && RunCheck(IntCheck(w), dnp) == 0
    ensures dnp.cls == FloatClass ==> RunCheck(FloatCheck(w), dnp) == 0 && RunCheck(IntCheck(w), dnp) == -1
  {
  }
}
