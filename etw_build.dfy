/**
 * The descriptor builder (dt_etw_trace_create), its struct payload check
 * (dt_etw_trace_check_struct_payload) and the pointer fix-up that has to run
 * after every byte copy of a descriptor (dt_etw_trace_validate).
 *
 * The front end's argument list is a sequence of nodes; argument ordinals in
 * diagnostics are 1-based, node positions are 0-based.
 */
module EtwBuild {
  import opened Wrappers
  import opened EtwTypes
  import opened EtwLayout

  /** The D_ETW_TRACE_* tag a diagnostic is raised with. */
  datatype DiagCode = Params | PName | PGuid | EName | Level | Keyword | Payload | PayloadType

  /** What a diagnostic complains about. */
  datatype Reason =
    | Missing
    | NotString
    | NotInteger
    | IsVariable
    | LevelOutOfRange
    | PayloadFormat
    | UnsupportedType
    | Incompatible(typeArg: nat)      // value not compatible with the type in argument #typeArg
    | Unimplemented(typeArg: nat)     // the type in argument #typeArg has no check
    | StructUnsatisfiable(declared: int, available: nat)

  /** A dnerror: the non-local exit out of the compilation, with the argument ordinal. */
  datatype BuildError = BuildError(code: DiagCode, arg: nat, reason: Reason)

  /** The largest event level, WINEVENT_LEVEL_VERBOSE. */
  const MaxLevel: nat := 5

  /**
   * A char* member of a descriptor: NULL, a pointer to a string owned by an
   * argument node, or a pointer to offset `offset` of the descriptor's own
   * det_data area.
   */
  datatype Ptr = Null | NodeString(s: CString) | Data(offset: nat)

  /** dt_etw_trace_payload_t */
  datatype PayloadDesc = PayloadDesc(typeIdx: nat, nameLength: nat, name: Ptr)

  /** The validated common arguments; `next` is the position of the first payload argument. */
  datatype Prefix = Prefix(
    providerName: CString, providerGuid: CString, group: Option<CString>,
    eventName: CString, level: nat, keyword: U64, next: nat)

  /** What a successful build produces, before any string is copied. */
  datatype Built = Built(prefix: Prefix, payloads: seq<PayloadDesc>)

  // ---------------------------------------------------------------------
  // Common arguments

  /** Argument #argi must exist, be a string and not be a variable. */
  function StringArg(args: seq<ArgNode>, argi: nat, code: DiagCode): (r: Result<CString, BuildError>)
    requires argi >= 1
    ensures r.Success? <==> argi <= |args| && args[argi - 1].cls == StringClass && !args[argi - 1].isVar
    ensures r.Success? ==> r.value == args[argi - 1].text
    ensures r.Failure? ==> r.error.arg == argi
  {
    if argi > |args| then Failure(BuildError(Params, argi, Missing))
    else if args[argi - 1].cls != StringClass then Failure(BuildError(code, argi, NotString))
    else if args[argi - 1].isVar then Failure(BuildError(code, argi, IsVariable))
    else Success(args[argi - 1].text)
  }

  /** Argument #argi must exist, be an integer and not be a variable. */
  function IntegerArg(args: seq<ArgNode>, argi: nat, code: DiagCode): (r: Result<U64, BuildError>)
    requires argi >= 1
    ensures r.Success? <==> argi <= |args| && args[argi - 1].cls == IntegerClass && !args[argi - 1].isVar
    ensures r.Success? ==> r.value == args[argi - 1].value
    ensures r.Failure? ==> r.error.arg == argi
  {
    if argi > |args| then Failure(BuildError(Params, argi, Missing))
    else if args[argi - 1].cls != IntegerClass then Failure(BuildError(code, argi, NotInteger))
    else if args[argi - 1].isVar then Failure(BuildError(code, argi, IsVariable))
    else Success(args[argi - 1].value)
  }

  /**
   * Provider name, provider GUID, the optional group GUID (an argument that
   * parses as a GUID; otherwise the argument index backs off by one and the
   * same argument is read again as the event name), event name, level and
   * keyword, then the payload-format check.
   */
  function ParsePrefix(args: seq<ArgNode>, parseGuid: string -> bool): (r: Result<Prefix, BuildError>)
    ensures r.Success? ==> Aligned(args, r.value.next)
    ensures r.Success? ==> r.value.next == (if r.value.group.Some? then CommonArgsCountWithGroup else CommonArgsCount)
    ensures r.Success? ==> r.value.level <= MaxLevel
    ensures r.Success? ==> (r.value.group.Some? <==> parseGuid(args[2].text))
    ensures r.Success? <==> PrefixAccepted(args, parseGuid)
    ensures r.Success? ==>
      && r.value.providerName == args[0].text
      && r.value.providerGuid == args[1].text
      && (r.value.group.Some? ==> r.value.group.value == args[2].text)
      && r.value.eventName == args[r.value.next - 3].text
      && r.value.level == args[r.value.next - 2].value as nat
      && r.value.keyword == args[r.value.next - 1].value
  {
    var name :- StringArg(args, 1, PName);
    var guid :- StringArg(args, 2, PGuid);
    var third :- StringArg(args, 3, EName);
    var group := if parseGuid(third) then Some(third) else None;
    var argi := if group.Some? then 4 else 3;
    var event :- StringArg(args, argi, EName);
    var level :- IntegerArg(args, argi + 1, Level);
    if level > MaxLevel then Failure(BuildError(Level, argi + 1, LevelOutOfRange))
    else
      var keyword :- IntegerArg(args, argi + 2, Keyword);
      // the payload-format diagnostic names no argument; 0 stands for none
      if (|args| - (argi + 2)) % PayloadTupleCount != 0 then Failure(BuildError(Payload, 0, PayloadFormat))
      else Success(Prefix(name, guid, group, event, level, keyword, argi + 2))
  }

  // ---------------------------------------------------------------------
  // Struct payload check

  /** The payload type node at `p` names the struct type (a string compare, not a lookup). */
  predicate IsStructHeader(args: seq<ArgNode>, p: nat)
    requires p < |args|
  {
    args[p].cls == StringClass && args[p].text == StructName
  }

  /** Positions from p to the end of the list form whole tuples. */
  predicate Aligned(args: seq<ArgNode>, p: nat)
  {
    p <= |args| && (|args| - p) % PayloadTupleCount == 0
  }

  /**
   * dt_etw_trace_check_struct_payload for the struct whose count is the value
   * node at `vpos`: the position right after the struct's members (|args| for
   * the end of the list), or the diagnostic.
   */
  function StructCheck(args: seq<ArgNode>, argi: nat, vpos: nat): (r: Result<nat, BuildError>)
    requires vpos < |args| && Aligned(args, vpos + 1)
    ensures r.Success? ==> vpos < r.value && Aligned(args, r.value)
    decreases |args| - vpos, 1
  {
    if args[vpos].isVar then Failure(BuildError(Payload, argi, IsVariable))
    else StructMembers(args, argi, ToInt32(args[vpos].value), vpos + 1, 0)
  }

  /** The loop of dt_etw_trace_check_struct_payload, from node `anp` with `count` members seen. */
  function StructMembers(args: seq<ArgNode>, argi: nat, size: int, anp: nat, count: nat): (r: Result<nat, BuildError>)
    requires Aligned(args, anp)
    ensures r.Success? ==> anp <= r.value && Aligned(args, r.value)
    decreases |args| + 1 - anp, 0
  {
    if anp == |args| then StructDone(args, argi, size, anp, count)
    else
      var next :- if IsStructHeader(args, anp) then StructCheck(args, argi + PayloadTupleCount, anp + 2)
                  else Success(anp + PayloadTupleCount);
      if count + 1 == size then StructDone(args, argi, size, next, count + 1)
      else StructMembers(args, argi, size, next, count + 1)
  }

  /** Where the member at `anp` ends: past its tuple, or past a nested struct's members. */
  function MemberEnd(args: seq<ArgNode>, argi: nat, anp: nat): (r: Result<nat, BuildError>)
    requires Aligned(args, anp) && anp < |args|
  {
    if IsStructHeader(args, anp) then StructCheck(args, argi + PayloadTupleCount, anp + 2)
    else Success(anp + PayloadTupleCount)
  }

  /**
   * One pass of the member loop: a nested check that fails is the loop's
   * failure; otherwise the loop stops at the declared size or goes on.
   */
  lemma StructMembersUnfold(args: seq<ArgNode>, argi: nat, size: int, anp: nat, count: nat)
    requires Aligned(args, anp) && anp < |args|
    ensures MemberEnd(args, argi, anp).Failure? ==>
      StructMembers(args, argi, size, anp, count) == Failure(MemberEnd(args, argi, anp).error)
    ensures MemberEnd(args, argi, anp).Success? ==>
      var next := MemberEnd(args, argi, anp).value;
      && anp < next && Aligned(args, next)
      && StructMembers(args, argi, size, anp, count) ==
        (if count + 1 == size then StructDone(args, argi, size, next, count + 1)
         else StructMembers(args, argi, size, next, count + 1))
  {
  }

  /** After the loop: too few members for the declared size is the error. */
  function StructDone(args: seq<ArgNode>, argi: nat, size: int, anp: nat, count: nat): (r: Result<nat, BuildError>)
    ensures r.Success? <==> count >= size
    ensures r.Success? ==> r.value == anp
  {
    if count < size then Failure(BuildError(Payload, argi, StructUnsatisfiable(size, count)))
    else Success(anp)
  }

  /**
   * dt_etw_trace_check_struct_payload as the source writes it: a loop over the
   * tuples after the struct header that recurses into nested struct headers.
   */
  method CheckStructPayload(args: seq<ArgNode>, argi: nat, vpos: nat) returns (r: Result<nat, BuildError>)
    requires vpos < |args| && Aligned(args, vpos + 1)
    ensures r == StructCheck(args, argi, vpos)
    decreases |args| - vpos
  {
    if args[vpos].isVar {
      return Failure(BuildError(Payload, argi, IsVariable));
    }
    var size := ToInt32(args[vpos].value);
    var count := 0;
    var anp := vpos + 1;
    while anp < |args|
      invariant vpos < anp && Aligned(args, anp)
      invariant StructMembers(args, argi, size, anp, count) == StructCheck(args, argi, vpos)
      decreases |args| - anp
    {
      StructMembersUnfold(args, argi, size, anp, count);
      var next := anp + PayloadTupleCount;
      if IsStructHeader(args, anp) {
        var sub := CheckStructPayload(args, argi + PayloadTupleCount, anp + 2);
        if sub.Failure? {
          return Failure(sub.error);
        }
        next := sub.value;
      }
      count := count + 1;
      if count == size {
        anp := next;
        break;
      }
      anp := next;
    }
    r := StructDone(args, argi, size, anp, count);
  }

  // ---------------------------------------------------------------------
  // Payload tuples

  /** The type, name and value checks of the tuple whose type node is at `p`. */
  function TupleHead(reg: seq<TypeEntry>, args: seq<ArgNode>, p: nat): (r: Result<PayloadDesc, BuildError>)
    requires p + 2 < |args|
    ensures r.Failure? ==> r.error.code == Payload || r.error.code == PayloadType
    ensures r.Failure? && r.error.code == PayloadType ==> r.error.arg == p + 3
  {
    var t := args[p];
    if t.cls != StringClass then Failure(BuildError(Payload, p + 1, NotString))
    else if t.isVar then Failure(BuildError(Payload, p + 1, IsVariable))
    else if IndexOf(reg, t.text) == -1 then Failure(BuildError(Payload, p + 1, UnsupportedType))
    else
      var idx: nat := IndexOf(reg, t.text);
      var n := args[p + 1];
      if n.cls != StringClass then Failure(BuildError(Payload, p + 2, NotString))
      else if n.isVar then Failure(BuildError(Payload, p + 2, IsVariable))
      else
        var compat := TypeCompat(reg, idx, args[p + 2]);
        if compat == -1 then Failure(BuildError(PayloadType, p + 3, Incompatible(p + 1)))
        else if compat == -2 then Failure(BuildError(PayloadType, p + 3, Unimplemented(p + 1)))
        else Success(PayloadDesc(idx, |n.text| + 1, NodeString(n.text)))
  }

  /**
   * An accepted tuple names a registered type, points at its name node's
   * string with that string's length plus its NUL, and has a value the
   * type's check accepts; a rejected one names one of its own three
   * arguments.
   */
  lemma TupleHeadShape(reg: seq<TypeEntry>, args: seq<ArgNode>, p: nat)
    requires p + 2 < |args|
    ensures TupleHead(reg, args, p).Success? ==>
      var d := TupleHead(reg, args, p).value;
      && d.typeIdx < |reg| && reg[d.typeIdx].name == args[p].text
      && d.name == NodeString(args[p + 1].text) && d.nameLength == |args[p + 1].text| + 1
      && TypeCompat(reg, d.typeIdx, args[p + 2]) == 0
    ensures TupleHead(reg, args, p).Failure? ==> p + 1 <= TupleHead(reg, args, p).error.arg <= p + 3
  {
  }

  /** One tuple: its head checks, then the struct check when its type is entry 0. */
  function Tuple(reg: seq<TypeEntry>, args: seq<ArgNode>, p: nat): (r: Result<PayloadDesc, BuildError>)
    requires p + 2 < |args| && Aligned(args, p)
    ensures r.Success? <==>
      && TupleHead(reg, args, p).Success?
      && (TupleHead(reg, args, p).value.typeIdx == StructTypeIdx ==> StructCheck(args, p + 3, p + 2).Success?)
    ensures r.Success? ==> r == TupleHead(reg, args, p)
  {
    var d :- TupleHead(reg, args, p);
    if d.typeIdx == StructTypeIdx then
      var s :- StructCheck(args, p + 3, p + 2);
      Success(d)
    else Success(d)
  }

  /** The tuple with index k counted from position first. */
  function TupleK(reg: seq<TypeEntry>, args: seq<ArgNode>, first: nat, k: nat): Result<PayloadDesc, BuildError>
    requires Aligned(args, first) && first + PayloadTupleCount * k < |args|
  {
    Tuple(reg, args, first + PayloadTupleCount * k)
  }

  /** Each tuple's verdict, from position first on. */
  function Verdicts(reg: seq<TypeEntry>, args: seq<ArgNode>, first: nat): (r: seq<Result<PayloadDesc, BuildError>>)
    requires Aligned(args, first)
    ensures |r| == (|args| - first) / PayloadTupleCount
    decreases |args| - first
  {
    if first == |args| then []
    else [Tuple(reg, args, first)] + Verdicts(reg, args, first + PayloadTupleCount)
  }

  /** Verdict k is that of the tuple k tuples after `first`. */
  lemma {:induction false} VerdictAt(reg: seq<TypeEntry>, args: seq<ArgNode>, first: nat, k: nat)
    requires Aligned(args, first) && first + PayloadTupleCount * k < |args|
    ensures k < |Verdicts(reg, args, first)|
    ensures Verdicts(reg, args, first)[k] == TupleK(reg, args, first, k)
    decreases k
  {
    if k > 0 {
      VerdictAt(reg, args, first + PayloadTupleCount, k - 1);
    }
  }

  /** The entries of all verdicts in order, or the first verdict's error. */
  function Collect(vs: seq<Result<PayloadDesc, BuildError>>): (r: Result<seq<PayloadDesc>, BuildError>)
    ensures r.Success? ==> |r.value| == |vs|
  {
    if vs == [] then Success([])
    else
      var d :- vs[0];
      var rest :- Collect(vs[1..]);
      Success([d] + rest)
  }

  /** The payload descriptors of all tuples from position p on. */
  function Payloads(reg: seq<TypeEntry>, args: seq<ArgNode>, p: nat): (r: Result<seq<PayloadDesc>, BuildError>)
    requires Aligned(args, p)
    ensures r.Success? ==> |r.value| == (|args| - p) / PayloadTupleCount
  {
    Collect(Verdicts(reg, args, p))
  }

  /** dt_etw_trace_create, up to the allocation of the final descriptor. */
  function BuildSpec(reg: seq<TypeEntry>, args: seq<ArgNode>, parseGuid: string -> bool): (r: Result<Built, BuildError>)
    ensures ParsePrefix(args, parseGuid).Failure? ==> r == Failure(ParsePrefix(args, parseGuid).error)
    ensures r.Success? ==> r.value.prefix == ParsePrefix(args, parseGuid).value
    ensures r.Success? ==> |r.value.payloads| == (|args| - r.value.prefix.next) / PayloadTupleCount
  {
    var pre :- ParsePrefix(args, parseGuid);
    assert Aligned(args, pre.next);
    var pls :- Payloads(reg, args, pre.next);
    Success(Built(pre, pls))
  }

  // ---------------------------------------------------------------------
  // String table

  /** The text a node-string pointer refers to. */
  function NodeText(p: Ptr): CString
  {
    if p.NodeString? then p.s else ""
  }

  /** Strings laid out one after the other, each followed by its NUL. */
  function StringTable(strs: seq<CString>): (r: seq<char>)
    ensures |r| == SumLengths(strs)
  {
    if strs == [] then [] else strs[0] + ['\0'] + StringTable(strs[1..])
  }

  /** The sum of strlen + 1 over the strings. */
  function SumLengths(strs: seq<CString>): nat
  {
    if strs == [] then 0 else |strs[0]| + 1 + SumLengths(strs[1..])
  }

  /** The sum of the stored name lengths of payload entries. */
  function NameLengthSum(pls: seq<PayloadDesc>): nat
  {
    if pls == [] then 0 else pls[0].nameLength + NameLengthSum(pls[1..])
  }

  /** The names of the payload entries. */
  function PayloadNames(pls: seq<PayloadDesc>): (r: seq<CString>)
    ensures |r| == |pls|
    ensures forall i :: 0 <= i < |pls| ==> r[i] == NodeText(pls[i].name)
  {
    if pls == [] then [] else [NodeText(pls[0].name)] + PayloadNames(pls[1..])
  }

  /** The group GUID as a list of zero or one strings. */
  function GroupList(g: Option<CString>): seq<CString>
  {
    if g.Some? then [g.value] else []
  }

  /**
   * The order in which dt_etw_trace_create copies the strings (and
   * dt_etw_trace_validate visits them): provider name, provider GUID, event
   * name, the group GUID if there is one, each payload name.
   */
  function CopyOrder(b: Built): seq<CString>
  {
    CommonStrings(b.prefix) + PayloadNames(b.payloads)
  }

  /** det_string_table_size as the builder accumulates it (group before event name). */
  function DeclaredTableSize(b: Built): nat
  {
    |b.prefix.providerName| + 1 + |b.prefix.providerGuid| + 1
      + (if b.prefix.group.Some? then |b.prefix.group.value| + 1 else 0)
      + |b.prefix.eventName| + 1 + NameLengthSum(b.payloads)
  }

  /** Payload entries whose stored lengths are those of the node strings they point to. */
  predicate NodeNamed(pls: seq<PayloadDesc>)
  {
    forall i :: 0 <= i < |pls| ==> pls[i].name.NodeString? && pls[i].nameLength == |pls[i].name.s| + 1
  }

  /** Chars of the C string at position k of a table. */
  function ReadString(table: seq<char>, k: nat): (r: string)
    decreases |table| - k
  {
    if k >= |table| || table[k] == '\0' then [] else [table[k]] + ReadString(table, k + 1)
  }

  /** The cursor position of string i when strings are laid out in order. */
  function Cursor(strs: seq<CString>, i: nat): nat
    requires i <= |strs|
  {
    SumLengths(strs[..i])
  }

  // ---------------------------------------------------------------------
  // The descriptor

  /**
   * dt_etw_trace_desc_t.  The header members are fields; det_data is the
   * payload array `plarr` (data offsets [0, PLARR_BSIZE)) followed by the
   * string table `strtab` (data offsets [PLARR_BSIZE, DATA_BSIZE)).
   */
  class TraceDesc {
    var providerNameLength: nat
    var providerName: Ptr
    var providerGuidLength: nat
    var providerGuid: Ptr
    var providerGroupGuidLength: nat
    var providerGroupGuid: Ptr
    var eventNameLength: nat
    var eventName: Ptr
    var level: nat
    var keyword: U64
    var pl: Ptr
    var plcount: nat
    var stringTableSize: nat
    var plarr: array<PayloadDesc>
    var strtab: array<char>

    /** The embedded regions have the sizes the header declares. */
    ghost predicate Valid()
      reads this
    {
      plarr.Length == plcount && strtab.Length == stringTableSize
    }

    /** The state dt_etw_trace_create leaves for the build result b. */
    ghost predicate IsBuiltFrom(b: Built)
      reads this, plarr, strtab
    {
      && Valid()
      && providerNameLength == |b.prefix.providerName| + 1
      && providerName == NodeString(b.prefix.providerName)
      && providerGuidLength == |b.prefix.providerGuid| + 1
      && providerGuid == NodeString(b.prefix.providerGuid)
      && (b.prefix.group.Some? ==>
            providerGroupGuidLength == |b.prefix.group.value| + 1
            && providerGroupGuid == NodeString(b.prefix.group.value))
      && (b.prefix.group.None? ==> providerGroupGuidLength == 0 && providerGroupGuid == Null)
      && eventNameLength == |b.prefix.eventName| + 1
      && eventName == NodeString(b.prefix.eventName)
      && level == b.prefix.level
      && keyword == b.prefix.keyword
      && pl == Null
      && plcount == |b.payloads|
      && stringTableSize == DeclaredTableSize(b)
      && plarr[..] == b.payloads
      && strtab[..] == StringTable(CopyOrder(b))
    }

    constructor Init(pre: Prefix, count: nat, tableSize: nat, entries: array<PayloadDesc>, table: array<char>)
      ensures providerNameLength == |pre.providerName| + 1 && providerName == NodeString(pre.providerName)
      ensures providerGuidLength == |pre.providerGuid| + 1 && providerGuid == NodeString(pre.providerGuid)
      ensures pre.group.Some? ==> providerGroupGuidLength == |pre.group.value| + 1
                                  && providerGroupGuid == NodeString(pre.group.value)
      ensures pre.group.None? ==> providerGroupGuidLength == 0 && providerGroupGuid == Null
      ensures eventNameLength == |pre.eventName| + 1 && eventName == NodeString(pre.eventName)
      ensures level == pre.level && keyword == pre.keyword && pl == Null
      ensures plcount == count && stringTableSize == tableSize
      ensures plarr == entries && strtab == table
    {
      providerNameLength, providerName := |pre.providerName| + 1, NodeString(pre.providerName);
      providerGuidLength, providerGuid := |pre.providerGuid| + 1, NodeString(pre.providerGuid);
      if pre.group.Some? {
        providerGroupGuidLength, providerGroupGuid := |pre.group.value| + 1, NodeString(pre.group.value);
      } else {
        providerGroupGuidLength, providerGroupGuid := 0, Null;
      }
      eventNameLength, eventName := |pre.eventName| + 1, NodeString(pre.eventName);
      level, keyword, pl := pre.level, pre.keyword, Null;
      plcount, stringTableSize := count, tableSize;
      plarr, strtab := entries, table;
    }

    /** Start of the string table, as a det_data offset. */
    function TableStart(): nat
      reads this
    {
      StringTabOffset(plcount)
    }

    /** p is a det_data offset into the string table at which the C string s is stored. */
    ghost predicate PointsTo(p: Ptr, s: CString)
      reads this, strtab
    {
      ReadsAt(strtab[..], TableStart(), p, s)
    }

    /**
     * dt_etw_trace_validate: the payload array pointer goes to det_data and
     * every string pointer to the current string-table cursor, which then
     * advances by that string's stored length; a zero group length means no
     * group GUID.
     */
    method Validate()
      requires Valid()
      modifies this, plarr
      ensures Valid()
      ensures plarr == old(plarr) && strtab == old(strtab) && strtab[..] == old(strtab[..])
      ensures providerNameLength == old(providerNameLength) && providerGuidLength == old(providerGuidLength)
      ensures providerGroupGuidLength == old(providerGroupGuidLength) && eventNameLength == old(eventNameLength)
      ensures level == old(level) && keyword == old(keyword)
      ensures plcount == old(plcount) && stringTableSize == old(stringTableSize)
      ensures pl == Data(PlArrOffset(plcount))
      ensures providerName == Data(TableStart())
      ensures providerGuid == Data(TableStart() + providerNameLength)
      ensures eventName == Data(TableStart() + providerNameLength + providerGuidLength)
      ensures providerGroupGuid == if providerGroupGuidLength != 0
        then Data(TableStart() + providerNameLength + providerGuidLength + eventNameLength)
        else Null
      ensures forall i :: 0 <= i < plcount ==>
        plarr[i] == old(plarr[i]).(name := Data(TableStart() + providerNameLength + providerGuidLength
                                               + eventNameLength + providerGroupGuidLength
                                               + NameLengthSum(old(plarr[..])[..i])))
    {
      pl := Data(PlArrOffset(plcount));
      var cursor := StringTabOffset(plcount);
      providerName := Data(cursor);
      cursor := cursor + providerNameLength;
      providerGuid := Data(cursor);
      cursor := cursor + providerGuidLength;
      eventName := Data(cursor);
      cursor := cursor + eventNameLength;
      if providerGroupGuidLength != 0 {
        providerGroupGuid := Data(cursor);
        cursor := cursor + providerGroupGuidLength;
      } else {
        providerGroupGuid := Null;
      }
      FixPayloadNames(plarr, cursor);
    }
  }

  /**
   * The payload-name part of dt_etw_trace_validate: entry i is pointed at
   * base plus the stored name lengths of the entries before it.
   */
  method FixPayloadNames(plarr: array<PayloadDesc>, base: nat)
    modifies plarr
    ensures forall i :: 0 <= i < plarr.Length ==>
      plarr[i] == old(plarr[i]).(name := Data(base + NameLengthSum(old(plarr[..])[..i])))
  {
    ghost var before := plarr[..];
    var cursor := base;
    var i := 0;
    while i < plarr.Length
      invariant 0 <= i <= plarr.Length
      invariant cursor == base + NameLengthSum(before[..i])
      invariant forall k :: i <= k < plarr.Length ==> plarr[k] == before[k]
      invariant forall k :: 0 <= k < i ==> plarr[k] == before[k].(name := Data(base + NameLengthSum(before[..k])))
    {
      NameLengthSumSnoc(before, i);
      plarr[i] := plarr[i].(name := Data(cursor));
      cursor := cursor + plarr[i].nameLength;
      i := i + 1;
    }
  }

  /** Copies s and its NUL into a at the cursor (COPY_ETW_TRACE_DESC_STRING). */
  method CopyString(a: array<char>, at: nat, s: CString) returns (next: nat)
    requires at + |s| + 1 <= a.Length
    modifies a
    ensures next == at + |s| + 1
    ensures a[..at] == old(a[..at])
    ensures a[at..next] == s + ['\0']
    ensures a[..next] == old(a[..at]) + (s + ['\0'])
    ensures a[next..] == old(a[next..])
  {
    forall k | 0 <= k < |s| {
      a[at + k] := s[k];
    }
    a[at + |s|] := '\0';
    next := at + |s| + 1;
    assert a[..next] == a[..at] + a[at..next];
  }

  /** The common strings in copy order. */
  function CommonStrings(pre: Prefix): seq<CString>
  {
    [pre.providerName, pre.providerGuid, pre.eventName] + GroupList(pre.group)
  }

  /**
   * dt_etw_trace_create: validates the arguments, fills the payload array in
   * tuple order, allocates the descriptor and copies every string into its
   * string table through a moving cursor, which must end exactly at the
   * declared table size.
   */
  method Create(args: seq<ArgNode>, parseGuid: string -> bool) returns (r: Result<TraceDesc, BuildError>)
    ensures r.Failure? <==> BuildSpec(Types, args, parseGuid).Failure?
    ensures r.Failure? ==> r.error == BuildSpec(Types, args, parseGuid).error
    ensures r.Success? ==> fresh(r.value) && fresh(r.value.plarr) && fresh(r.value.strtab)
                           && r.value.IsBuiltFrom(BuildSpec(Types, args, parseGuid).value)
  {
    r := CreateWith(Types, args, parseGuid);
  }

  /** Create over any type registry; the source's is the table `Types`. */
  method CreateWith(reg: seq<TypeEntry>, args: seq<ArgNode>, parseGuid: string -> bool) returns (r: Result<TraceDesc, BuildError>)
    ensures r.Failure? <==> BuildSpec(reg, args, parseGuid).Failure?
    ensures r.Failure? ==> r.error == BuildSpec(reg, args, parseGuid).error
    ensures r.Success? ==> fresh(r.value) && fresh(r.value.plarr) && fresh(r.value.strtab)
                           && r.value.IsBuiltFrom(BuildSpec(reg, args, parseGuid).value)
  {
    var pre :- ParsePrefix(args, parseGuid);
    var fixedSize := |pre.providerName| + 1 + |pre.providerGuid| + 1
      + (if pre.group.Some? then |pre.group.value| + 1 else 0) + |pre.eventName| + 1;
    var plarr, tableSize :- CheckPayloads(reg, args, pre.next, fixedSize);
    ghost var b := Built(pre, plarr[..]);
    assert BuildSpec(reg, args, parseGuid) == Success(b);
    assert SumLengths(CommonStrings(pre)) == fixedSize by {
      SumLengthsOfFixed(pre.providerName, pre.providerGuid, pre.eventName, GroupList(pre.group));
    }
    var strtab := WriteStringTable(pre, plarr, tableSize);
    var trace := new TraceDesc.Init(pre, plarr.Length, tableSize, plarr, strtab);
    r := Success(trace);
  }

  /**
   * The payload loop of dt_etw_trace_create: one entry per tuple from
   * position `first` on, each checked in turn, growing the string table
   * size from `start` by each payload name's length.
   */
  method CheckPayloads(reg: seq<TypeEntry>, args: seq<ArgNode>, first: nat, start: nat) returns (r: Result<array<PayloadDesc>, BuildError>, tableSize: nat)
    requires Aligned(args, first)
    ensures r.Failure? <==> Payloads(reg, args, first).Failure?
    ensures r.Failure? ==> r.error == Payloads(reg, args, first).error
    ensures r.Success? ==> fresh(r.value) && r.value[..] == Payloads(reg, args, first).value
    ensures r.Success? ==> tableSize == start + NameLengthSum(r.value[..]) && NodeNamed(r.value[..])
  {
    var plcount := (|args| - first) / PayloadTupleCount;
    var plarr := new PayloadDesc[plcount];
    tableSize := start;
    var plidx := 0;
    var anp := first;
    ghost var verdicts := Verdicts(reg, args, first);
    while anp < |args|
      invariant plidx <= plcount && anp == first + PayloadTupleCount * plidx
      invariant Accepted(verdicts, plarr[..plidx])
      invariant tableSize == start + NameLengthSum(plarr[..plidx])
      invariant NodeNamed(plarr[..plidx])
      decreases |args| - anp
    {
      var d := CheckTuple(reg, args, first, plidx);
      VerdictAt(reg, args, first, plidx);
      if d.Failure? {
        AcceptedSucceed(verdicts, plarr[..plidx]);
        CollectFail(verdicts, plidx);
        return Failure(d.error), tableSize;
      }
      ghost var done := plarr[..plidx];
      AcceptStep(verdicts, done, d.value, start, tableSize);
      plarr[plidx] := d.value;
      assert plarr[..plidx + 1] == done + [d.value];
      tableSize := tableSize + d.value.nameLength;
      plidx := plidx + 1;
      anp := anp + PayloadTupleCount;
    }
    assert plarr[..plidx] == plarr[..];
    CollectOk(verdicts, plarr[..]);
    r := Success(plarr);
  }

  /** The first |s| verdicts accept the entries of s, in order. */
  predicate Accepted(vs: seq<Result<PayloadDesc, BuildError>>, s: seq<PayloadDesc>)
  {
    |s| <= |vs| && forall k :: 0 <= k < |s| ==> vs[k] == Success(s[k])
  }

  /** Verdicts that accepted entries are successes. */
  lemma AcceptedSucceed(vs: seq<Result<PayloadDesc, BuildError>>, s: seq<PayloadDesc>)
    requires Accepted(vs, s)
    ensures forall j :: 0 <= j < |s| ==> vs[j].Success?
  {
    forall j | 0 <= j < |s|
      ensures vs[j].Success?
    {
      assert vs[j] == Success(s[j]);
    }
  }

  /** All verdicts accepted: the collected entries are theirs, in order. */
  lemma {:induction false} CollectOk(vs: seq<Result<PayloadDesc, BuildError>>, s: seq<PayloadDesc>)
    requires |s| == |vs| && Accepted(vs, s)
    ensures Collect(vs) == Success(s)
  {
    if vs != [] {
      assert vs[0] == Success(s[0]);
      assert Accepted(vs[1..], s[1..]) by {
        forall k | 0 <= k < |s[1..]|
          ensures vs[1..][k] == Success(s[1..][k])
        {
          assert vs[1..][k] == vs[k + 1];
          assert s[1..][k] == s[k + 1];
        }
      }
      CollectOk(vs[1..], s[1..]);
      assert s == [s[0]] + s[1..];
    }
  }

  /** The first rejected verdict decides the error. */
  lemma {:induction false} CollectFail(vs: seq<Result<PayloadDesc, BuildError>>, k: nat)
    requires k < |vs| && vs[k].Failure?
    requires forall j :: 0 <= j < k ==> vs[j].Success?
    ensures Collect(vs) == Failure(vs[k].error)
  {
    if k > 0 {
      assert vs[0].Success?;
      CollectFail(vs[1..], k - 1);
    }
  }

  /** Accepting verdict |done| keeps the loop's record of the entries so far. */
  lemma AcceptStep(verdicts: seq<Result<PayloadDesc, BuildError>>, done: seq<PayloadDesc>, d: PayloadDesc,
                   start: nat, size: nat)
    requires |done| < |verdicts| && verdicts[|done|] == Success(d)
    requires Accepted(verdicts, done)
    requires size == start + NameLengthSum(done) && NodeNamed(done)
    requires d.name.NodeString? && d.nameLength == |d.name.s| + 1
    ensures Accepted(verdicts, done + [d])
    ensures size + d.nameLength == start + NameLengthSum(done + [d]) && NodeNamed(done + [d])
  {
    var next := done + [d];
    assert done == next[..|done|] && next == next[..|done| + 1];
    NameLengthSumSnoc(next, |done|);
    forall k | 0 <= k < |next|
      ensures verdicts[k] == Success(next[k])
    {
      if k < |done| {
        assert next[k] == done[k];
      }
    }
    forall k | 0 <= k < |next|
      ensures next[k].name.NodeString? && next[k].nameLength == |next[k].name.s| + 1
    {
      if k < |done| {
        assert next[k] == done[k];
      }
    }
  }

  /** One iteration's checks: the tuple head, then the struct check for entry 0. */
  method CheckTuple(reg: seq<TypeEntry>, args: seq<ArgNode>, first: nat, k: nat) returns (r: Result<PayloadDesc, BuildError>)
    requires Aligned(args, first) && first + PayloadTupleCount * k < |args|
    ensures r == TupleK(reg, args, first, k)
    ensures r.Success? ==> r.value.name == NodeString(args[first + PayloadTupleCount * k + 1].text)
                           && r.value.nameLength == |args[first + PayloadTupleCount * k + 1].text| + 1
  {
    var p := first + PayloadTupleCount * k;
    TupleHeadShape(reg, args, p);
    r := TupleHead(reg, args, p);
    if r.Success? && r.value.typeIdx == StructTypeIdx {
      var s := CheckStructPayload(args, p + 3, p + 2);
      if s.Failure? {
        r := Failure(s.error);
      }
    }
  }

  /**
   * The copy half of dt_etw_trace_create: the common strings, then each
   * payload name, through one cursor that ends at the table size.
   */
  method WriteStringTable(pre: Prefix, plarr: array<PayloadDesc>, tableSize: nat) returns (strtab: array<char>)
    requires NodeNamed(plarr[..])
    requires tableSize == SumLengths(CommonStrings(pre)) + NameLengthSum(plarr[..])
    ensures fresh(strtab) && strtab.Length == tableSize
    ensures strtab[..] == StringTable(CommonStrings(pre) + PayloadNames(plarr[..]))
  {
    var fixed := CommonStrings(pre);
    var pls := plarr[..];
    var names := PayloadNames(pls);
    StringTableConcat(fixed, names);
    NameLengthsAreSums(pls);
    strtab := new char[tableSize];
    var cursor := CopyCommonStrings(strtab, pre);
    var i := 0;
    while i < plarr.Length
      invariant 0 <= i <= plarr.Length
      invariant cursor == SumLengths(fixed) + SumLengths(names[..i]) && cursor <= tableSize
      invariant strtab[..cursor] == StringTable(fixed) + StringTable(names[..i])
    {
      var s := NodeText(plarr[i].name);
      assert s == names[i];
      StringTableSnoc(names, i);
      SumLengthsPrefix(names, i + 1);
      cursor := CopyString(strtab, cursor, s);
      AppendAssoc(StringTable(fixed), StringTable(names[..i]), s + ['\0']);
      i := i + 1;
    }
    assert names[..plarr.Length] == names;
    // the cursor has reached the end of the table (the source asserts this)
    assert cursor == StringTabBSize(tableSize);
    assert strtab[..] == strtab[..cursor];
  }

  lemma AppendAssoc(a: seq<char>, b: seq<char>, c: seq<char>)
    ensures (a + b) + c == a + (b + c)
  {
  }

  /** Appending one more string to the table adds its characters and a NUL. */
  lemma {:induction false} StringTableSnoc(strs: seq<CString>, i: nat)
    requires i < |strs|
    ensures StringTable(strs[..i + 1]) == StringTable(strs[..i]) + (strs[i] + ['\0'])
    ensures SumLengths(strs[..i + 1]) == SumLengths(strs[..i]) + |strs[i]| + 1
  {
    assert strs[..i + 1] == strs[..i] + [strs[i]];
    StringTableConcat(strs[..i], [strs[i]]);
    assert [strs[i]][1..] == [];
  }

  /** The four common COPY_ETW_TRACE_DESC_STRING steps into a fresh table. */
  method CopyCommonStrings(strtab: array<char>, pre: Prefix) returns (cursor: nat)
    requires SumLengths(CommonStrings(pre)) <= strtab.Length
    modifies strtab
    ensures cursor == SumLengths(CommonStrings(pre))
    ensures strtab[..cursor] == StringTable(CommonStrings(pre))
  {
    SumLengthsOfFixed(pre.providerName, pre.providerGuid, pre.eventName, GroupList(pre.group));
    cursor := CopyString(strtab, 0, pre.providerName);
    ghost var t1 := strtab[..cursor];
    assert t1 == pre.providerName + ['\0'];
    cursor := CopyString(strtab, cursor, pre.providerGuid);
    ghost var t2 := strtab[..cursor];
    assert t2 == t1 + pre.providerGuid + ['\0'] by {
      assert strtab[..cursor] == strtab[..|t1|] + strtab[|t1|..cursor];
    }
    cursor := CopyString(strtab, cursor, pre.eventName);
    ghost var t3 := strtab[..cursor];
    assert t3 == t2 + pre.eventName + ['\0'] by {
      assert strtab[..cursor] == strtab[..|t2|] + strtab[|t2|..cursor];
    }
    if pre.group.Some? {
      cursor := CopyString(strtab, cursor, pre.group.value);
      assert strtab[..cursor] == t3 + pre.group.value + ['\0'] by {
        assert strtab[..cursor] == strtab[..|t3|] + strtab[|t3|..cursor];
      }
    }
    StringTableOfFixed(pre.providerName, pre.providerGuid, pre.eventName, GroupList(pre.group));
  }

  // ---------------------------------------------------------------------
  // Lemmas used by the builder's proof

  lemma NameLengthSumSnoc(s: seq<PayloadDesc>, i: nat)
    requires i < |s|
    ensures NameLengthSum(s[..i + 1]) == NameLengthSum(s[..i]) + s[i].nameLength
  {
    if i > 0 {
      assert s[..i + 1][1..] == s[1..][..i];
      assert s[..i][1..] == s[1..][..i - 1];
      NameLengthSumSnoc(s[1..], i - 1);
    }
  }

  lemma {:induction false} StringTableConcat(a: seq<CString>, b: seq<CString>)
    ensures StringTable(a + b) == StringTable(a) + StringTable(b)
    ensures SumLengths(a + b) == SumLengths(a) + SumLengths(b)
  {
    if a != [] {
      assert (a + b)[1..] == a[1..] + b;
      StringTableConcat(a[1..], b);
    } else {
      assert a + b == b;
    }
  }

  lemma PayloadNamesSnoc(pls: seq<PayloadDesc>, i: nat)
    requires i < |pls|
    ensures PayloadNames(pls[..i + 1]) == PayloadNames(pls[..i]) + [NodeText(pls[i].name)]
  {
  }

  lemma SumLengthsPrefix(strs: seq<CString>, i: nat)
    requires i <= |strs|
    ensures SumLengths(strs[..i]) <= SumLengths(strs)
  {
    assert strs == strs[..i] + strs[i..];
    StringTableConcat(strs[..i], strs[i..]);
  }

  lemma SumLengthsOfFixed(a: CString, b: CString, c: CString, g: seq<CString>)
    requires |g| <= 1
    ensures SumLengths([a, b, c] + g) == |a| + 1 + |b| + 1 + |c| + 1 + (if g == [] then 0 else |g[0]| + 1)
  {
    StringTableConcat([a, b, c], g);
    assert [a, b, c][1..] == [b, c];
    assert [b, c][1..] == [c];
    if g != [] {
      assert g[1..] == [];
    }
  }

  lemma StringTableOfFixed(a: CString, b: CString, c: CString, g: seq<CString>)
    requires |g| <= 1
    ensures StringTable([a, b, c] + g) == a + ['\0'] + b + ['\0'] + c + ['\0'] + (if g == [] then [] else g[0] + ['\0'])
  {
    StringTableConcat([a, b, c], g);
    StringTableOfThree(a, b, c);
    if g != [] {
      assert g == [g[0]];
      StringTableOfOne(g[0]);
    }
  }

  lemma StringTableOfThree(a: CString, b: CString, c: CString)
    ensures StringTable([a, b, c]) == a + ['\0'] + b + ['\0'] + c + ['\0']
  {
    assert [a, b, c][1..] == [b, c];
    assert [b, c][1..] == [c];
    StringTableOfOne(c);
    var tb := StringTable([b, c]);
    assert tb == b + ['\0'] + (c + ['\0']);
    AppendAssoc(b + ['\0'], c, ['\0']);
    assert StringTable([a, b, c]) == a + ['\0'] + tb;
    AppendAssoc(a + ['\0'], b + ['\0'] + c, ['\0']);
    AppendAssoc(a + ['\0'], b + ['\0'], c);
    AppendAssoc(a + ['\0'], b, ['\0']);
  }

  lemma StringTableOfOne(c: CString)
    ensures StringTable([c]) == c + ['\0']
  {
    assert [c][1..] == [];
  }

  lemma {:induction false} NameLengthsAreSums(pls: seq<PayloadDesc>)
    requires NodeNamed(pls)
    ensures NameLengthSum(pls) == SumLengths(PayloadNames(pls))
  {
    if pls != [] {
      assert PayloadNames(pls)[1..] == PayloadNames(pls[1..]);
      NameLengthsAreSums(pls[1..]);
    }
  }

  // ---------------------------------------------------------------------
  // Properties of the builder

  /** Reading the string at string i's cursor position gives string i back. */
  lemma {:induction false} TableRoundTrip(strs: seq<CString>, i: nat)
    requires i < |strs|
    ensures Cursor(strs, i) < |StringTable(strs)|
    ensures ReadString(StringTable(strs), Cursor(strs, i)) == strs[i]
  {
    var t := StringTable(strs);
    assert strs == strs[..i] + strs[i..];
    StringTableConcat(strs[..i], strs[i..]);
    assert strs[i..][1..] == strs[i + 1..];
    var c := Cursor(strs, i);
    assert t == StringTable(strs[..i]) + (strs[i] + ['\0']) + StringTable(strs[i + 1..]);
    ReadStringAt(t, c, strs[i]);
  }

  /** A table holding s and a NUL at position c reads back s there. */
  lemma {:induction false} ReadStringAt(t: seq<char>, c: nat, s: CString)
    requires c + |s| < |t| && t[c..c + |s|] == s && t[c + |s|] == '\0'
    ensures ReadString(t, c) == s
    decreases |s|
  {
    if s != [] {
      assert t[c] == s[0];
      assert t[c + 1..c + 1 + |s[1..]|] == s[1..];
      ReadStringAt(t, c + 1, s[1..]);
      assert s == [s[0]] + s[1..];
    }
  }

  lemma CursorTail(strs: seq<CString>, i: nat)
    requires i < |strs|
    ensures Cursor(strs, i + 1) == Cursor(strs, i) + |strs[i]| + 1
  {
    assert strs[..i + 1] == strs[..i] + [strs[i]];
    StringTableConcat(strs[..i], [strs[i]]);
    assert [strs[i]][1..] == [];
  }

  /**
   * The offsets dt_etw_trace_validate assigns, relative to the start of the
   * string table, are the copy cursors of dt_etw_trace_create: provider name,
   * provider GUID and event name first, then the group GUID (whose stored
   * length is 0 when there is none), then each payload name after the
   * stored lengths of those before it.
   */
  lemma {:induction false} ValidateOffsetsAreCursors(b: Built)
    requires NodeNamed(b.payloads)
    ensures var strs := CopyOrder(b);
      var n := |b.prefix.providerName| + 1;
      var g := |b.prefix.providerGuid| + 1;
      var e := |b.prefix.eventName| + 1;
      var grp := if b.prefix.group.Some? then |b.prefix.group.value| + 1 else 0;
      && Cursor(strs, 0) == 0
      && Cursor(strs, 1) == n
      && Cursor(strs, 2) == n + g
      && (b.prefix.group.Some? ==> Cursor(strs, 3) == n + g + e)
      && forall i :: 0 <= i < |b.payloads| ==>
           Cursor(strs, 3 + |GroupList(b.prefix.group)| + i) == n + g + e + grp + NameLengthSum(b.payloads[..i])
  {
    PrefixCursors(b);
    forall i | 0 <= i < |b.payloads|
      ensures Cursor(CopyOrder(b), 3 + |GroupList(b.prefix.group)| + i)
              == Cursor(CopyOrder(b), 3 + |GroupList(b.prefix.group)|) + NameLengthSum(b.payloads[..i])
    {
      PayloadCursor(b, i);
    }
  }

  /**
   * dt_etw_trace_validate applied to a descriptor as dt_etw_trace_create
   * built it: every string pointer then reads back the string it stood for.
   */
  method ValidateBuilt(t: TraceDesc, ghost b: Built)
    requires t.IsBuiltFrom(b) && NodeNamed(b.payloads)
    modifies t, t.plarr
    ensures t.plarr == old(t.plarr) && t.strtab == old(t.strtab) && t.strtab[..] == old(t.strtab[..])
    ensures t.pl == Data(PlArrOffset(t.plcount))
    ensures t.PointsTo(t.providerName, b.prefix.providerName)
    ensures t.PointsTo(t.providerGuid, b.prefix.providerGuid)
    ensures t.PointsTo(t.eventName, b.prefix.eventName)
    ensures b.prefix.group.Some? ==> t.PointsTo(t.providerGroupGuid, b.prefix.group.value)
    ensures b.prefix.group.None? ==> t.providerGroupGuid == Null
    ensures t.plarr.Length == |b.payloads|
    ensures forall i :: 0 <= i < |b.payloads| ==>
      && t.plarr[i] == b.payloads[i].(name := t.plarr[i].name)
      && t.PointsTo(t.plarr[i].name, NodeText(b.payloads[i].name))
  {
    ghost var before := t.plarr[..];
    t.Validate();
    ValidatedReadsBack(t, b);
  }

  /** Pointers laid out as validate lays them out read back the strings of b. */
  lemma ValidatedReadsBack(t: TraceDesc, b: Built)
    requires NodeNamed(b.payloads)
    requires t.strtab[..] == StringTable(CopyOrder(b))
    requires t.plarr.Length == |b.payloads|
    requires var n, g := |b.prefix.providerName| + 1, |b.prefix.providerGuid| + 1;
      && t.providerName == Data(t.TableStart())
      && t.providerGuid == Data(t.TableStart() + n)
      && t.eventName == Data(t.TableStart() + n + g)
      && (b.prefix.group.Some? ==> t.providerGroupGuid == Data(t.TableStart() + n + g + |b.prefix.eventName| + 1))
    requires forall i :: 0 <= i < |b.payloads| ==>
      t.plarr[i].name == Data(t.TableStart() + PayloadNamesBase(b) + NameLengthSum(b.payloads[..i]))
    ensures t.PointsTo(t.providerName, b.prefix.providerName)
    ensures t.PointsTo(t.providerGuid, b.prefix.providerGuid)
    ensures t.PointsTo(t.eventName, b.prefix.eventName)
    ensures b.prefix.group.Some? ==> t.PointsTo(t.providerGroupGuid, b.prefix.group.value)
    ensures forall i :: 0 <= i < |b.payloads| ==> t.PointsTo(t.plarr[i].name, NodeText(b.payloads[i].name))
  {
    var n, g := |b.prefix.providerName| + 1, |b.prefix.providerGuid| + 1;
    var grp := if b.prefix.group.Some? then t.providerGroupGuid else Data(t.TableStart() + n + g + |b.prefix.eventName| + 1);
    CommonReadsBack(b, t.TableStart(), t.providerName, t.providerGuid, t.eventName, grp);
    forall i | 0 <= i < |b.payloads|
      ensures t.PointsTo(t.plarr[i].name, NodeText(b.payloads[i].name))
    {
      PayloadNameReadsBack(b, i, t.TableStart(), t.plarr[i].name);
    }
  }

  /** The four common pointers of validate read back the common strings of b. */
  lemma CommonReadsBack(b: Built, start: nat, name: Ptr, guid: Ptr, event: Ptr, group: Ptr)
    requires var n, g := |b.prefix.providerName| + 1, |b.prefix.providerGuid| + 1;
      && name == Data(start) && guid == Data(start + n) && event == Data(start + n + g)
      && group == Data(start + n + g + |b.prefix.eventName| + 1)
    ensures var table := StringTable(CopyOrder(b));
      && ReadsAt(table, start, name, b.prefix.providerName)
      && ReadsAt(table, start, guid, b.prefix.providerGuid)
      && ReadsAt(table, start, event, b.prefix.eventName)
      && (b.prefix.group.Some? ==> ReadsAt(table, start, group, b.prefix.group.value))
  {
    CommonNamesReadBack(b);
  }

  /** p is a det_data offset, past the string table's start, at which table holds the C string s. */
  predicate ReadsAt(table: seq<char>, start: nat, p: Ptr, s: CString)
  {
    p.Data? && p.offset >= start && ReadString(table, p.offset - start) == s
  }

  /** Where validate starts the payload names: after the four common strings. */
  function PayloadNamesBase(b: Built): nat
  {
    |b.prefix.providerName| + 1 + |b.prefix.providerGuid| + 1 + |b.prefix.eventName| + 1
      + (if b.prefix.group.Some? then |b.prefix.group.value| + 1 else 0)
  }

  /** The common-string offsets validate computes read back the common strings. */
  lemma CommonNamesReadBack(b: Built)
    ensures var table := StringTable(CopyOrder(b));
      var n := |b.prefix.providerName| + 1;
      var g := |b.prefix.providerGuid| + 1;
      var e := |b.prefix.eventName| + 1;
      && ReadString(table, 0) == b.prefix.providerName
      && ReadString(table, n) == b.prefix.providerGuid
      && ReadString(table, n + g) == b.prefix.eventName
      && (b.prefix.group.Some? ==> ReadString(table, n + g + e) == b.prefix.group.value)
  {
    var strs := CopyOrder(b);
    PrefixCursors(b);
    TableRoundTrip(strs, 0);
    TableRoundTrip(strs, 1);
    TableRoundTrip(strs, 2);
    if b.prefix.group.Some? {
      TableRoundTrip(strs, 3);
    }
  }

  /** The payload-name pointer validate computes reads back that payload's name. */
  lemma PayloadNameReadsBack(b: Built, i: nat, start: nat, p: Ptr)
    requires NodeNamed(b.payloads) && i < |b.payloads|
    requires p == Data(start + PayloadNamesBase(b) + NameLengthSum(b.payloads[..i]))
    ensures ReadsAt(StringTable(CopyOrder(b)), start, p, NodeText(b.payloads[i].name))
  {
    var strs := CopyOrder(b);
    var j := 3 + |GroupList(b.prefix.group)| + i;
    assert |CommonStrings(b.prefix)| + i == j;
    ValidateOffsetsAreCursors(b);
    var c := Cursor(strs, j);
    assert c == PayloadNamesBase(b) + NameLengthSum(b.payloads[..i]);
    TableRoundTrip(strs, j);
    assert strs[j] == PayloadNames(b.payloads)[i];
    assert ReadString(StringTable(strs), c) == NodeText(b.payloads[i].name);
  }

  /** The cursors of the common strings, and where the payload names start. */
  lemma PrefixCursors(b: Built)
    ensures var strs := CopyOrder(b);
      var n := |b.prefix.providerName| + 1;
      var g := |b.prefix.providerGuid| + 1;
      var e := |b.prefix.eventName| + 1;
      var grp := if b.prefix.group.Some? then |b.prefix.group.value| + 1 else 0;
      && Cursor(strs, 0) == 0
      && Cursor(strs, 1) == n
      && Cursor(strs, 2) == n + g
      && (b.prefix.group.Some? ==> Cursor(strs, 3) == n + g + e)
      && 3 + |GroupList(b.prefix.group)| <= |strs|
      && Cursor(strs, 3 + |GroupList(b.prefix.group)|) == n + g + e + grp
  {
    var strs := CopyOrder(b);
    var common := CommonStrings(b.prefix);
    assert strs[0] == b.prefix.providerName && strs[1] == b.prefix.providerGuid && strs[2] == b.prefix.eventName;
    assert strs[..0] == [];
    CursorTail(strs, 0);
    CursorTail(strs, 1);
    assert |common| == 3 + |GroupList(b.prefix.group)|;
    CursorTail(strs, 2);
    if b.prefix.group.Some? {
      assert strs[3] == b.prefix.group.value;
      CursorTail(strs, 3);
    }
  }

  /** Payload name j starts after the stored lengths of the names before it. */
  lemma {:induction false} PayloadCursor(b: Built, j: nat)
    requires NodeNamed(b.payloads) && j <= |b.payloads|
    ensures var strs, base := CopyOrder(b), 3 + |GroupList(b.prefix.group)|;
      base + j <= |strs| && Cursor(strs, base + j) == Cursor(strs, base) + NameLengthSum(b.payloads[..j])
    decreases j
  {
    var strs, base := CopyOrder(b), 3 + |GroupList(b.prefix.group)|;
    assert |CommonStrings(b.prefix)| == base;
    if j == 0 {
      assert b.payloads[..0] == [];
    } else {
      PayloadCursor(b, j - 1);
      CursorTail(strs, base + j - 1);
      assert strs[base + j - 1] == NodeText(b.payloads[j - 1].name);
      NameLengthSumSnoc(b.payloads, j - 1);
    }
  }

  /** An accepted build has one payload entry per tuple and a level of at most 5. */
  lemma BuildShape(reg: seq<TypeEntry>, args: seq<ArgNode>, parseGuid: string -> bool)
    requires BuildSpec(reg, args, parseGuid).Success?
    ensures var b := BuildSpec(reg, args, parseGuid).value;
      && b.prefix.level <= MaxLevel
      && b.prefix.next == (if b.prefix.group.Some? then CommonArgsCountWithGroup else CommonArgsCount)
      && (|args| - b.prefix.next) % PayloadTupleCount == 0
      && |b.payloads| == (|args| - b.prefix.next) / PayloadTupleCount
      && (b.prefix.group.Some? <==> parseGuid(args[2].text))
  {
  }

  /** A well-typed prefix whose level is above 5 is rejected at the level argument. */
  lemma LevelAboveMaxRejected(reg: seq<TypeEntry>, args: seq<ArgNode>, parseGuid: string -> bool)
    requires ParsePrefixUpToLevel(args, parseGuid)
    requires args[LevelArg(args, parseGuid) - 1].value > MaxLevel
    ensures BuildSpec(reg, args, parseGuid) == Failure(BuildError(Level, LevelArg(args, parseGuid), LevelOutOfRange))
  {
  }

  /** The ordinal of the level argument: 5 with a group GUID, 4 without. */
  function LevelArg(args: seq<ArgNode>, parseGuid: string -> bool): nat
    requires |args| >= 3
  {
    if parseGuid(args[2].text) then 5 else 4
  }

  /** The five or six common arguments up to the level are literals of the right classes. */
  predicate ParsePrefixUpToLevel(args: seq<ArgNode>, parseGuid: string -> bool)
  {
    && |args| >= 3
    && (forall i :: 0 <= i < LevelArg(args, parseGuid) - 1 && i < |args| ==> args[i].cls == StringClass && !args[i].isVar)
    && LevelArg(args, parseGuid) <= |args|
    && args[LevelArg(args, parseGuid) - 1].cls == IntegerClass && !args[LevelArg(args, parseGuid) - 1].isVar
  }

  /** Every common argument is a literal of the right class, the level is at most 5 and whole tuples follow. */
  predicate PrefixAccepted(args: seq<ArgNode>, parseGuid: string -> bool)
  {
    && ParsePrefixUpToLevel(args, parseGuid)
    && args[LevelArg(args, parseGuid) - 1].value <= MaxLevel
    && LevelArg(args, parseGuid) < |args|
    && args[LevelArg(args, parseGuid)].cls == IntegerClass && !args[LevelArg(args, parseGuid)].isVar
    && Aligned(args, LevelArg(args, parseGuid) + 1)
  }

  /** A list whose payload part is not whole tuples is rejected, after all common checks pass. */
  lemma PartialTupleRejected(reg: seq<TypeEntry>, args: seq<ArgNode>, parseGuid: string -> bool)
    requires ParsePrefixUpToLevel(args, parseGuid)
    requires args[LevelArg(args, parseGuid) - 1].value <= MaxLevel
    requires LevelArg(args, parseGuid) < |args|
    requires args[LevelArg(args, parseGuid)].cls == IntegerClass && !args[LevelArg(args, parseGuid)].isVar
    requires (|args| - (LevelArg(args, parseGuid) + 1)) % PayloadTupleCount != 0
    ensures BuildSpec(reg, args, parseGuid) == Failure(BuildError(Payload, 0, PayloadFormat))
  {
  }

  /** The table size the builder declares is the length of the table it fills. */
  lemma DeclaredSizeIsTableLength(reg: seq<TypeEntry>, args: seq<ArgNode>, parseGuid: string -> bool)
    requires BuildSpec(reg, args, parseGuid).Success?
    ensures var b := BuildSpec(reg, args, parseGuid).value;
      DeclaredTableSize(b) == |StringTable(CopyOrder(b))|
  {
    var b := BuildSpec(reg, args, parseGuid).value;
    PayloadsAreNodeNamed(reg, args, b.prefix.next);
    NameLengthsAreSums(b.payloads);
    StringTableConcat(CommonStrings(b.prefix), PayloadNames(b.payloads));
    SumLengthsOfFixed(b.prefix.providerName, b.prefix.providerGuid, b.prefix.eventName, GroupList(b.prefix.group));
  }

  /** Accepted payload entries point at their name nodes with those names' lengths. */
  lemma PayloadsAreNodeNamed(reg: seq<TypeEntry>, args: seq<ArgNode>, p: nat)
    requires Aligned(args, p) && Payloads(reg, args, p).Success?
    ensures NodeNamed(Payloads(reg, args, p).value)
  {
    var s := Payloads(reg, args, p).value;
    forall k | 0 <= k < |s|
      ensures s[k].name.NodeString? && s[k].nameLength == |s[k].name.s| + 1
    {
      PayloadNodeNamedAt(reg, args, p, k);
    }
  }

  /** Accepted payload entry k points at its name node with that name's length. */
  lemma PayloadNodeNamedAt(reg: seq<TypeEntry>, args: seq<ArgNode>, p: nat, k: nat)
    requires Aligned(args, p) && Payloads(reg, args, p).Success?
    requires k < |Payloads(reg, args, p).value|
    ensures var e := Payloads(reg, args, p).value[k];
      e.name.NodeString? && e.nameLength == |e.name.s| + 1
  {
    var vs := Verdicts(reg, args, p);
    TupleInside(args, p, k);
    var q := p + PayloadTupleCount * k;
    CollectedEntry(vs, k);
    VerdictAt(reg, args, p, k);
    TupleHeadShape(reg, args, q);
  }

  /** Tuple k of an aligned list lies wholly inside it. */
  lemma TupleInside(args: seq<ArgNode>, p: nat, k: nat)
    requires Aligned(args, p) && k < (|args| - p) / PayloadTupleCount
    ensures p + PayloadTupleCount * k + 2 < |args|
  {
  }

  /** Entry k of an accepted collection is verdict k's entry. */
  lemma {:induction false} CollectedEntry(vs: seq<Result<PayloadDesc, BuildError>>, k: nat)
    requires Collect(vs).Success? && k < |vs|
    ensures vs[k] == Success(Collect(vs).value[k])
  {
    if k > 0 {
      CollectedEntry(vs[1..], k - 1);
    }
  }

  // ---------------------------------------------------------------------
  // Properties of the struct check

  /**
   * A struct can never claim more members than tuples remain: the check then
   * fails (at the latest when the list runs out).
   */
  lemma {:induction false} StructTooLargeRejected(args: seq<ArgNode>, argi: nat, size: int, anp: nat, count: nat)
    requires Aligned(args, anp)
    requires size > count + (|args| - anp) / PayloadTupleCount
    ensures StructMembers(args, argi, size, anp, count).Failure?
    decreases |args| - anp
  {
    if anp < |args| {
      if IsStructHeader(args, anp) {
        var sub := StructCheck(args, argi + PayloadTupleCount, anp + 2);
        if sub.Success? {
          StructTooLargeRejected(args, argi, size, sub.value, count + 1);
        }
      } else {
        StructTooLargeRejected(args, argi, size, anp + PayloadTupleCount, count + 1);
      }
    }
  }

  /**
   * A struct whose declared size is zero or negative (after the int
   * conversion) never reaches its count: it absorbs every remaining tuple and
   * is not reported.
   */
  lemma {:induction false} NonPositiveStructAbsorbsRest(args: seq<ArgNode>, argi: nat, size: int, anp: nat, count: nat)
    requires Aligned(args, anp) && size <= 0
    requires StructMembers(args, argi, size, anp, count).Success?
    ensures StructMembers(args, argi, size, anp, count).value == |args|
    decreases |args| - anp
  {
    if anp < |args| {
      var next := if IsStructHeader(args, anp) then StructCheck(args, argi + PayloadTupleCount, anp + 2).value
                  else anp + PayloadTupleCount;
      NonPositiveStructAbsorbsRest(args, argi, size, next, count + 1);
    }
  }

  /**
   * A struct of n scalar members, with no struct header among them, ends
   * exactly n tuples after its header.
   */
  lemma {:induction false} ScalarStructExtent(args: seq<ArgNode>, argi: nat, size: int, anp: nat, count: nat)
    requires Aligned(args, anp) && count < size
    requires anp + PayloadTupleCount * (size - count) <= |args|
    requires forall j :: 0 <= j < size - count ==> !IsStructHeader(args, anp + PayloadTupleCount * j)
    ensures StructMembers(args, argi, size, anp, count) == Success(anp + PayloadTupleCount * (size - count))
    decreases size - count
  {
    assert !IsStructHeader(args, anp + PayloadTupleCount * 0);
    if count + 1 < size {
      forall j | 0 <= j < size - (count + 1)
        ensures !IsStructHeader(args, anp + PayloadTupleCount + PayloadTupleCount * j)
      {
        assert !IsStructHeader(args, anp + PayloadTupleCount * (j + 1));
      }
      ScalarStructExtent(args, argi, size, anp + PayloadTupleCount, count + 1);
    }
  }

  /**
   * A nested struct counts as one member: a struct of size 1 whose member
   * is a struct header ends where the nested struct's own check ends, and
   * fails exactly as that check fails.
   */
  lemma NestedStructCheck(args: seq<ArgNode>, argi: nat, vpos: nat)
    requires vpos + 1 < |args| && Aligned(args, vpos + 1)
    requires !args[vpos].isVar && ToInt32(args[vpos].value) == 1
    requires IsStructHeader(args, vpos + 1)
    ensures vpos + 3 < |args| && Aligned(args, vpos + 4)
    ensures StructCheck(args, argi, vpos) == StructCheck(args, argi + PayloadTupleCount, vpos + 3)
  {
    StructMembersUnfold(args, argi, 1, vpos + 1, 0);
  }
}
