/**
 * The run-time half of etw_trace (dt_etw_trace and dt_etw_trace_struct): the
 * records a probe firing produced are walked in payload order, nested
 * structs by recursion, and each value is appended to a TraceLogging event
 * through its registry adder; the event is then written to the provider.
 *
 * The walk itself is as the source writes it.  The driver loop follows the
 * corrected reading of the source's intent: a payload that fails to be added
 * inside a struct skips the whole trace, as one outside a struct does (see
 * TopLoop for the loop as written and FailureInStructStillWrites for where
 * the two differ).
 */
module EtwEmit {
  import opened Wrappers
  import opened EtwTypes

  /** One payload descriptor as the emitter reads it: its type index and its name. */
  datatype EmitPayload = EmitPayload(typeIdx: nat, name: string)

  /** The descriptor members the emitter reads. */
  datatype EmitDesc = EmitDesc(eventName: string, level: nat, keyword: U64, pls: seq<EmitPayload>)

  /**
   * dtrace_recdesc_t, reduced to what the emitter reads: whether its action
   * is DTRACEACT_ETWTRACE, its size and its offset into the record buffer.
   */
  datatype RecDesc = RecDesc(isEtwTrace: bool, size: nat, offset: nat)

  /** A TraceLogging event as written: name, level, keyword and fields. */
  datatype Event = Event(name: string, level: nat, keyword: U64, fields: seq<Field>)

  /** What dt_etw_trace returns: the records consumed, or EDT_DMISMATCH. */
  datatype Status = Consumed(n: nat) | Mismatch

  /** The compile-time guarantee the emitter relies on: every type index is in the registry. */
  predicate TypesInRange(reg: seq<TypeEntry>, d: EmitDesc)
  {
    forall i :: 0 <= i < |d.pls| ==> d.pls[i].typeIdx < |reg|
  }

  /** The state of a walk: records for every payload, indices in the registry. */
  predicate Walkable(reg: seq<TypeEntry>, d: EmitDesc, recs: seq<RecDesc>)
  {
    TypesInRange(reg, d) && |d.pls| <= |recs|
  }

  /** Byte k of the buffer, 0 past its end. */
  function ByteAt(buf: seq<bv8>, k: nat): (r: bv8)
    ensures k < |buf| ==> r == buf[k]
  {
    if k < |buf| then buf[k] else 0
  }

  /** *(uint32_t *)(buf + off), little-endian; past the buffer's end a byte reads as 0. */
  function LoadU32(buf: seq<bv8>, off: nat): (r: nat)
    ensures r < 0x1_0000_0000
  {
    var w: bv32 := (ByteAt(buf, off) as bv32) | ((ByteAt(buf, off + 1) as bv32) << 8)
      | ((ByteAt(buf, off + 2) as bv32) << 16) | ((ByteAt(buf, off + 3) as bv32) << 24);
    w as nat
  }

  /** The member count of a struct: its record's uint32 value as an int. */
  function StructSize(buf: seq<bv8>, rec: RecDesc): (r: int)
    ensures -0x8000_0000 <= r < 0x8000_0000
  {
    ToInt32(LoadU32(buf, rec.offset))
  }

  /**
   * DT_ETW_TRACE_ADD_EVENT_PAYLOAD_DATA for one payload: None when its type
   * has no adder or the adder returns -1, otherwise the field it appends.
   */
  function AddPayload(reg: seq<TypeEntry>, p: EmitPayload, rec: RecDesc, buf: seq<bv8>): (r: Option<Field>)
    requires p.typeIdx < |reg|
    ensures r.Some? ==> reg[p.typeIdx].add.Some?
    ensures reg[p.typeIdx].add.Some? ==>
      r == RunAdd(reg[p.typeIdx].add.value, p.name, reg[p.typeIdx].tld, buf, rec.offset, rec.size)
  {
    match reg[p.typeIdx].add
    case None => None
    case Some(a) => RunAdd(a, p.name, reg[p.typeIdx].tld, buf, rec.offset, rec.size)
  }

  /** Payload j is a struct header or can be added. */
  predicate AddOk(reg: seq<TypeEntry>, d: EmitDesc, recs: seq<RecDesc>, buf: seq<bv8>, j: nat)
    requires Walkable(reg, d, recs) && j < |d.pls|
  {
    d.pls[j].typeIdx == StructTypeIdx || AddPayload(reg, d.pls[j], recs[j], buf).Some?
  }

  /** Every payload in [from, to) is a struct header or can be added. */
  predicate AllAddOk(reg: seq<TypeEntry>, d: EmitDesc, recs: seq<RecDesc>, buf: seq<bv8>, from: nat, to: nat)
    requires Walkable(reg, d, recs) && to <= |d.pls|
  {
    forall j :: from <= j < to ==> AddOk(reg, d, recs, buf, j)
  }

  // ---------------------------------------------------------------------
  // The struct walk, as written

  /**
   * dt_etw_trace_struct for the struct header at idx: the index it returns
   * (the last payload it consumed, or plcount when an add failed) and the
   * members it appended to the struct.
   */
  function StructWalk(reg: seq<TypeEntry>, d: EmitDesc, recs: seq<RecDesc>, buf: seq<bv8>, idx: nat): (r: (int, seq<Field>))
    requires Walkable(reg, d, recs) && idx < |d.pls|
    ensures idx <= r.0 <= |d.pls|
    decreases |d.pls| - idx, 1
  {
    StructLoop(reg, d, recs, buf, StructSize(buf, recs[idx]), idx + 1, 0, [])
  }

  /** The for loop of dt_etw_trace_struct, at payload i with count members seen. */
  function StructLoop(reg: seq<TypeEntry>, d: EmitDesc, recs: seq<RecDesc>, buf: seq<bv8>,
                      sz: int, i: nat, count: nat, acc: seq<Field>): (r: (int, seq<Field>))
    requires Walkable(reg, d, recs) && 1 <= i <= |d.pls| + 1
    ensures i - 1 <= r.0 <= |d.pls|
    decreases |d.pls| + 1 - i, 0
  {
    if !(i < |d.pls| && count < sz) then (i - 1, acc)
    else if d.pls[i].typeIdx == StructTypeIdx then
      var sub := StructWalk(reg, d, recs, buf, i);
      StructLoop(reg, d, recs, buf, sz, sub.0 + 1, count + 1, acc + [Struct(d.pls[i].name, sub.1)])
    else
      match AddPayload(reg, d.pls[i], recs[i], buf)
      case None => (|d.pls|, acc)
      case Some(f) => StructLoop(reg, d, recs, buf, sz, i + 1, count + 1, acc + [f])
  }

  /**
   * dt_etw_trace_struct as the source writes it: a counted loop over the
   * payloads after the header that recurses into nested headers and
   * returns plcount as soon as an add fails.
   */
  method EmitStruct(reg: seq<TypeEntry>, d: EmitDesc, recs: seq<RecDesc>, buf: seq<bv8>, idx: nat)
    returns (last: int, members: seq<Field>)
    requires Walkable(reg, d, recs) && idx < |d.pls|
    ensures (last, members) == StructWalk(reg, d, recs, buf, idx)
    decreases |d.pls| - idx, 0
  {
    var structSz := StructSize(buf, recs[idx]);
    var i := idx + 1;
    var count := 0;
    members := [];
    while i < |d.pls| && count < structSz
      invariant idx + 1 <= i <= |d.pls| + 1
      invariant StructLoop(reg, d, recs, buf, structSz, i, count, members) == StructWalk(reg, d, recs, buf, idx)
      decreases |d.pls| + 1 - i
    {
      var next, stop, more := EmitMember(reg, d, recs, buf, structSz, i, count, members);
      MemberStepAdvances(reg, d, recs, buf, structSz, i, count, members);
      if stop {
        return |d.pls|, members;
      }
      members := more;
      i, count := next, count + 1;
    }
    last := i - 1;
  }

  /**
   * One pass of dt_etw_trace_struct's loop, at payload i: where the loop
   * goes on, whether the add failed, and the members so far.  A nested
   * header is walked and appended as a struct, any other payload is added.
   */
  function MemberStep(reg: seq<TypeEntry>, d: EmitDesc, recs: seq<RecDesc>, buf: seq<bv8>, i: nat, members: seq<Field>): (r: (nat, bool, seq<Field>))
    requires Walkable(reg, d, recs) && i < |d.pls|
    ensures i < r.0 <= |d.pls| + 1
    ensures r.1 ==> d.pls[i].typeIdx != StructTypeIdx && r.2 == members
    ensures !r.1 ==> |r.2| == |members| + 1 && r.2[..|members|] == members
  {
    if d.pls[i].typeIdx == StructTypeIdx then
      var sub := StructWalk(reg, d, recs, buf, i);
      (sub.0 + 1, false, members + [Struct(d.pls[i].name, sub.1)])
    else
      var f := AddPayload(reg, d.pls[i], recs[i], buf);
      (i + 1, f.None?, if f.None? then members else members + [f.value])
  }

  /** One pass of dt_etw_trace_struct's loop, in place; a nested header recurses. */
  method EmitMember(reg: seq<TypeEntry>, d: EmitDesc, recs: seq<RecDesc>, buf: seq<bv8>,
                    sz: int, i: nat, count: nat, members: seq<Field>)
    returns (next: nat, stop: bool, more: seq<Field>)
    requires Walkable(reg, d, recs) && 1 <= i < |d.pls| && count < sz
    ensures (next, stop, more) == MemberStep(reg, d, recs, buf, i, members)
    decreases |d.pls| - i, 1
  {
    if d.pls[i].typeIdx == StructTypeIdx {
      var j, sub := EmitStruct(reg, d, recs, buf, i);
      return j + 1, false, members + [Struct(d.pls[i].name, sub)];
    }
    var f := AddPayload(reg, d.pls[i], recs[i], buf);
    if f.None? {
      return i + 1, true, members;
    }
    return i + 1, false, members + [f.value];
  }

  /**
   * A pass whose add failed ends the walk at plcount; any other moves
   * forward (past the whole nested struct for a header) with one more
   * member counted and leaves the walk's outcome as it was.
   */
  lemma MemberStepAdvances(reg: seq<TypeEntry>, d: EmitDesc, recs: seq<RecDesc>, buf: seq<bv8>,
                           sz: int, i: nat, count: nat, members: seq<Field>)
    requires Walkable(reg, d, recs) && 1 <= i < |d.pls| && count < sz
    ensures var (next, stop, more) := MemberStep(reg, d, recs, buf, i, members);
      && (stop ==> StructLoop(reg, d, recs, buf, sz, i, count, members) == (|d.pls|, members))
      && (!stop ==> i < next <= |d.pls| + 1)
      && (!stop ==> StructLoop(reg, d, recs, buf, sz, next, count + 1, more) == StructLoop(reg, d, recs, buf, sz, i, count, members))
  {
  }

  // ---------------------------------------------------------------------
  // The driver loop

  /**
   * The payload loop of dt_etw_trace as the source writes it: the fields of
   * the event, or None when an add outside any struct failed.  A struct walk
   * that reports a failure (by returning plcount) ends the loop, and the
   * event is still written.
   */
  function TopLoop(reg: seq<TypeEntry>, d: EmitDesc, recs: seq<RecDesc>, buf: seq<bv8>, i: nat, acc: seq<Field>): (r: Option<seq<Field>>)
    requires Walkable(reg, d, recs) && i <= |d.pls| + 1
    ensures r.Some? ==> |acc| <= |r.value| <= |acc| + (if i < |d.pls| then |d.pls| - i else 0) && r.value[..|acc|] == acc
    decreases |d.pls| + 1 - i
  {
    if i >= |d.pls| then Some(acc)
    else if d.pls[i].typeIdx == StructTypeIdx then
      var sub := StructWalk(reg, d, recs, buf, i);
      TopLoop(reg, d, recs, buf, sub.0 + 1, acc + [Struct(d.pls[i].name, sub.1)])
    else
      match AddPayload(reg, d.pls[i], recs[i], buf)
      case None => None
      case Some(f) => TopLoop(reg, d, recs, buf, i + 1, acc + [f])
  }

  /**
   * The payload loop of dt_etw_trace as intended: a struct walk that reports
   * a failure skips the trace, like a failed add outside a struct.
   */
  function Payload(reg: seq<TypeEntry>, d: EmitDesc, recs: seq<RecDesc>, buf: seq<bv8>, i: nat, acc: seq<Field>): (r: Option<seq<Field>>)
    requires Walkable(reg, d, recs) && i <= |d.pls| + 1
    ensures r.Some? ==> |acc| <= |r.value| <= |acc| + (if i < |d.pls| then |d.pls| - i else 0) && r.value[..|acc|] == acc
    decreases |d.pls| + 1 - i
  {
    if i >= |d.pls| then Some(acc)
    else if d.pls[i].typeIdx == StructTypeIdx then
      var sub := StructWalk(reg, d, recs, buf, i);
      if sub.0 == |d.pls| then None
      else Payload(reg, d, recs, buf, sub.0 + 1, acc + [Struct(d.pls[i].name, sub.1)])
    else
      match AddPayload(reg, d.pls[i], recs[i], buf)
      case None => None
      case Some(f) => Payload(reg, d, recs, buf, i + 1, acc + [f])
  }

  /** Some record of the first plcount is not an etw_trace record. */
  predicate ForeignRecord(d: EmitDesc, recs: seq<RecDesc>)
    requires |d.pls| <= |recs|
  {
    exists i :: 0 <= i < |d.pls| && !recs[i].isEtwTrace
  }

  /**
   * dt_etw_trace: the record checks, the provider checks (whether the
   * provider could be created and whether anyone listens to it are
   * parameters), then the payload loop given by `walk`; an event is written
   * only when the loop completes.
   */
  function EmitWith(reg: seq<TypeEntry>, d: EmitDesc, recs: seq<RecDesc>, buf: seq<bv8>,
                    providerValid: bool, providerEnabled: bool, asWritten: bool): (r: (Status, Option<Event>))
    requires TypesInRange(reg, d)
    ensures r.0 == Mismatch <==> |d.pls| > |recs| || ForeignRecord(d, recs)
    ensures r.0 != Mismatch ==> r.0 == Consumed(|d.pls|)
    ensures r.1.Some? ==> r.0 == Consumed(|d.pls|) && providerValid && providerEnabled
    ensures r.1.Some? ==> r.1.value.name == d.eventName && r.1.value.level == d.level && r.1.value.keyword == d.keyword
  {
    if |d.pls| > |recs| then (Mismatch, None)
    else if ForeignRecord(d, recs) then (Mismatch, None)
    else if !providerValid || !providerEnabled then (Consumed(|d.pls|), None)
    else
      var fields := if asWritten then TopLoop(reg, d, recs, buf, 0, []) else Payload(reg, d, recs, buf, 0, []);
      match fields
      case None => (Consumed(|d.pls|), None)
      case Some(fs) => (Consumed(|d.pls|), Some(Event(d.eventName, d.level, d.keyword, fs)))
  }

  /** dt_etw_trace with the corrected payload loop. */
  function EmitSpec(reg: seq<TypeEntry>, d: EmitDesc, recs: seq<RecDesc>, buf: seq<bv8>,
                    providerValid: bool, providerEnabled: bool): (r: (Status, Option<Event>))
    requires TypesInRange(reg, d)
    ensures r.1.Some? ==> |r.1.value.fields| <= |d.pls|
  {
    EmitWith(reg, d, recs, buf, providerValid, providerEnabled, false)
  }

  /**
   * dt_etw_trace: checks the record count and every record's action, the
   * provider, then walks the payloads in order, recursing into structs, and
   * writes the event once every payload has been added.
   */
  method Emit(reg: seq<TypeEntry>, d: EmitDesc, recs: seq<RecDesc>, buf: seq<bv8>,
              providerValid: bool, providerEnabled: bool) returns (status: Status, written: Option<Event>)
    requires TypesInRange(reg, d)
    ensures (status, written) == EmitSpec(reg, d, recs, buf, providerValid, providerEnabled)
  {
    var plcount := |d.pls|;
    if plcount > |recs| {
      return Mismatch, None;
    }
    var k := 0;
    while k < plcount
      invariant 0 <= k <= plcount
      invariant forall j :: 0 <= j < k ==> recs[j].isEtwTrace
    {
      if !recs[k].isEtwTrace {
        return Mismatch, None;
      }
      k := k + 1;
    }
    if !providerValid || !providerEnabled {
      return Consumed(plcount), None;
    }
    var fields := EmitFields(reg, d, recs, buf);
    status := Consumed(plcount);
    if fields.Some? {
      written := Some(Event(d.eventName, d.level, d.keyword, fields.value));
    } else {
      written := None;
    }
  }

  /**
   * The payload loop of dt_etw_trace, as intended: the fields of the event,
   * or None as soon as an add fails, inside a struct or not.
   */
  method EmitFields(reg: seq<TypeEntry>, d: EmitDesc, recs: seq<RecDesc>, buf: seq<bv8>)
    returns (r: Option<seq<Field>>)
    requires Walkable(reg, d, recs)
    ensures r == Payload(reg, d, recs, buf, 0, [])
  {
    var fields := [];
    var i := 0;
    while i < |d.pls|
      invariant 0 <= i <= |d.pls| + 1
      invariant Payload(reg, d, recs, buf, i, fields) == Payload(reg, d, recs, buf, 0, [])
      decreases |d.pls| + 1 - i
    {
      var stop, next, more := EmitField(reg, d, recs, buf, i, fields);
      FieldStepAdvances(reg, d, recs, buf, i, fields);
      if stop {
        return None;
      }
      i, fields := next, more;
    }
    return Some(fields);
  }

  /**
   * One pass of dt_etw_trace's payload loop, at payload i: whether the trace
   * is skipped, where the loop goes on, and the fields so far.  A struct
   * header is walked and appended as a struct, any other payload is added.
   */
  function FieldStep(reg: seq<TypeEntry>, d: EmitDesc, recs: seq<RecDesc>, buf: seq<bv8>, i: nat, acc: seq<Field>): (r: (bool, nat, seq<Field>))
    requires Walkable(reg, d, recs) && i < |d.pls|
    ensures i < r.1 <= |d.pls| + 1
    ensures d.pls[i].typeIdx != StructTypeIdx && r.0 ==> r.2 == acc
    ensures !r.0 ==> |r.2| == |acc| + 1 && r.2[..|acc|] == acc
  {
    if d.pls[i].typeIdx == StructTypeIdx then
      var sub := StructWalk(reg, d, recs, buf, i);
      (sub.0 == |d.pls|, sub.0 + 1, acc + [Struct(d.pls[i].name, sub.1)])
    else
      var f := AddPayload(reg, d.pls[i], recs[i], buf);
      (f.None?, i + 1, if f.None? then acc else acc + [f.value])
  }

  /** One pass of dt_etw_trace's payload loop, in place. */
  method EmitField(reg: seq<TypeEntry>, d: EmitDesc, recs: seq<RecDesc>, buf: seq<bv8>, i: nat, fields: seq<Field>)
    returns (stop: bool, next: nat, more: seq<Field>)
    requires Walkable(reg, d, recs) && i < |d.pls|
    ensures (stop, next, more) == FieldStep(reg, d, recs, buf, i, fields)
  {
    if d.pls[i].typeIdx == StructTypeIdx {
      var j, sub := EmitStruct(reg, d, recs, buf, i);
      stop, next, more := j == |d.pls|, j + 1, fields + [Struct(d.pls[i].name, sub)];
    } else {
      var f := AddPayload(reg, d.pls[i], recs[i], buf);
      stop, next, more := f.None?, i + 1, if f.None? then fields else fields + [f.value];
    }
  }

  /**
   * A pass that skips the trace means the whole loop skips it; any other
   * moves forward and leaves the loop's outcome as it was.
   */
  lemma FieldStepAdvances(reg: seq<TypeEntry>, d: EmitDesc, recs: seq<RecDesc>, buf: seq<bv8>, i: nat, acc: seq<Field>)
    requires Walkable(reg, d, recs) && i < |d.pls|
    ensures var (stop, next, more) := FieldStep(reg, d, recs, buf, i, acc);
      && (stop ==> Payload(reg, d, recs, buf, i, acc) == None)
      && (!stop ==> i < next <= |d.pls| + 1 && Payload(reg, d, recs, buf, next, more) == Payload(reg, d, recs, buf, i, acc))
  {
  }

  // ---------------------------------------------------------------------
  // Properties of the walk

  /**
   * A struct walk that returns below plcount added every payload it covered,
   * the header's successors up to the returned index.
   */
  lemma {:induction false} StructLoopCovers(reg: seq<TypeEntry>, d: EmitDesc, recs: seq<RecDesc>, buf: seq<bv8>,
                                            sz: int, i: nat, count: nat, acc: seq<Field>)
    requires Walkable(reg, d, recs) && 1 <= i <= |d.pls| + 1
    ensures var r := StructLoop(reg, d, recs, buf, sz, i, count, acc);
      r.0 < |d.pls| ==> AllAddOk(reg, d, recs, buf, i, r.0 + 1)
    ensures i <= |d.pls| && StructLoop(reg, d, recs, buf, sz, i, count, acc).0 == |d.pls| ==>
      !AllAddOk(reg, d, recs, buf, i, |d.pls|)
    decreases |d.pls| + 1 - i, 0
  {
    if i < |d.pls| && count < sz {
      var (next, stop, more) := MemberStep(reg, d, recs, buf, i, acc);
      MemberStepAdvances(reg, d, recs, buf, sz, i, count, acc);
      var r := StructLoop(reg, d, recs, buf, sz, i, count, acc);
      if stop {
        assert !AddOk(reg, d, recs, buf, i);
        AllAddOkJoin(reg, d, recs, buf, i, i + 1, |d.pls|);
      } else {
        StructLoopCovers(reg, d, recs, buf, sz, next, count + 1, more);
        assert AddOk(reg, d, recs, buf, i);
        if d.pls[i].typeIdx == StructTypeIdx {
          StructWalkCovers(reg, d, recs, buf, i);
        }
        if next <= |d.pls| {
          AllAddOkJoin(reg, d, recs, buf, i + 1, next, |d.pls|);
          if r.0 < |d.pls| {
            AllAddOkJoin(reg, d, recs, buf, i + 1, next, r.0 + 1);
          }
        }
        AllAddOkJoin(reg, d, recs, buf, i, i + 1, |d.pls|);
        if r.0 < |d.pls| {
          AllAddOkJoin(reg, d, recs, buf, i, i + 1, r.0 + 1);
        }
      }
    }
  }

  /** A range of payloads that can all be added splits at any point between. */
  lemma AllAddOkJoin(reg: seq<TypeEntry>, d: EmitDesc, recs: seq<RecDesc>, buf: seq<bv8>, from: nat, mid: nat, to: nat)
    requires Walkable(reg, d, recs) && from <= mid <= to <= |d.pls|
    ensures AllAddOk(reg, d, recs, buf, from, to) <==>
      AllAddOk(reg, d, recs, buf, from, mid) && AllAddOk(reg, d, recs, buf, mid, to)
  {
  }

  /** The same for the whole walk of the struct at idx. */
  lemma {:induction false} StructWalkCovers(reg: seq<TypeEntry>, d: EmitDesc, recs: seq<RecDesc>, buf: seq<bv8>, idx: nat)
    requires Walkable(reg, d, recs) && idx < |d.pls|
    ensures var r := StructWalk(reg, d, recs, buf, idx);
      r.0 < |d.pls| ==> AllAddOk(reg, d, recs, buf, idx + 1, r.0 + 1)
    ensures StructWalk(reg, d, recs, buf, idx).0 == |d.pls| ==> !AllAddOk(reg, d, recs, buf, idx + 1, |d.pls|)
    decreases |d.pls| - idx, 1
  {
    StructLoopCovers(reg, d, recs, buf, StructSize(buf, recs[idx]), idx + 1, 0, []);
  }

  /**
   * The corrected loop writes exactly when every payload from i on is a
   * struct header or can be added: no partial event is ever written.
   */
  lemma {:induction false} PayloadWritesIffAllAdded(reg: seq<TypeEntry>, d: EmitDesc, recs: seq<RecDesc>, buf: seq<bv8>,
                                                    i: nat, acc: seq<Field>)
    requires Walkable(reg, d, recs) && i <= |d.pls| + 1
    ensures Payload(reg, d, recs, buf, i, acc).Some? <==> AllAddOk(reg, d, recs, buf, i, |d.pls|)
    decreases |d.pls| + 1 - i
  {
    if i < |d.pls| {
      if d.pls[i].typeIdx == StructTypeIdx {
        var sub := StructWalk(reg, d, recs, buf, i);
        StructWalkCovers(reg, d, recs, buf, i);
        if sub.0 < |d.pls| {
          PayloadWritesIffAllAdded(reg, d, recs, buf, sub.0 + 1, acc + [Struct(d.pls[i].name, sub.1)]);
          assert AddOk(reg, d, recs, buf, i);
        }
      } else if AddPayload(reg, d.pls[i], recs[i], buf).Some? {
        PayloadWritesIffAllAdded(reg, d, recs, buf, i + 1, acc + [AddPayload(reg, d.pls[i], recs[i], buf).value]);
      } else {
        assert !AddOk(reg, d, recs, buf, i);
      }
    }
  }

  /** When the corrected loop writes, the loop as written writes the same fields. */
  lemma {:induction false} PayloadAgreesWhenComplete(reg: seq<TypeEntry>, d: EmitDesc, recs: seq<RecDesc>, buf: seq<bv8>,
                                                     i: nat, acc: seq<Field>)
    requires Walkable(reg, d, recs) && i <= |d.pls| + 1
    requires Payload(reg, d, recs, buf, i, acc).Some?
    ensures TopLoop(reg, d, recs, buf, i, acc) == Payload(reg, d, recs, buf, i, acc)
    decreases |d.pls| + 1 - i
  {
    if i < |d.pls| {
      if d.pls[i].typeIdx == StructTypeIdx {
        var sub := StructWalk(reg, d, recs, buf, i);
        PayloadAgreesWhenComplete(reg, d, recs, buf, sub.0 + 1, acc + [Struct(d.pls[i].name, sub.1)]);
      } else {
        PayloadAgreesWhenComplete(reg, d, recs, buf, i + 1, acc + [AddPayload(reg, d.pls[i], recs[i], buf).value]);
      }
    }
  }

  /** A struct never holds more members than its declared count. */
  lemma {:induction false} StructMembersBounded(reg: seq<TypeEntry>, d: EmitDesc, recs: seq<RecDesc>, buf: seq<bv8>,
                                                sz: int, i: nat, count: nat, acc: seq<Field>)
    requires Walkable(reg, d, recs) && 1 <= i <= |d.pls| + 1
    ensures var r := StructLoop(reg, d, recs, buf, sz, i, count, acc);
      |r.1| <= |acc| + (if sz > count then sz - count else 0)
    decreases |d.pls| + 1 - i, 0
  {
    if i < |d.pls| && count < sz {
      if d.pls[i].typeIdx == StructTypeIdx {
        var sub := StructWalk(reg, d, recs, buf, i);
        StructMembersBounded(reg, d, recs, buf, sz, sub.0 + 1, count + 1, acc + [Struct(d.pls[i].name, sub.1)]);
      } else if AddPayload(reg, d.pls[i], recs[i], buf).Some? {
        StructMembersBounded(reg, d, recs, buf, sz, i + 1, count + 1, acc + [AddPayload(reg, d.pls[i], recs[i], buf).value]);
      }
    }
  }

  /** Every payload in [i, e) can be added. */
  predicate Addable(reg: seq<TypeEntry>, d: EmitDesc, recs: seq<RecDesc>, buf: seq<bv8>, i: nat, e: nat)
    requires Walkable(reg, d, recs) && e <= |d.pls|
  {
    forall j :: i <= j < e ==> AddPayload(reg, d.pls[j], recs[j], buf).Some?
  }

  /** The fields of payloads [i, e) when every one of them can be added. */
  function Adds(reg: seq<TypeEntry>, d: EmitDesc, recs: seq<RecDesc>, buf: seq<bv8>, i: nat, e: nat): (r: seq<Field>)
    requires Walkable(reg, d, recs) && i <= e <= |d.pls|
    requires Addable(reg, d, recs, buf, i, e)
    ensures |r| == e - i
    decreases e - i
  {
    if i == e then [] else [AddPayload(reg, d.pls[i], recs[i], buf).value] + Adds(reg, d, recs, buf, i + 1, e)
  }

  /** Field j - i of Adds over [i, e) is payload j's field. */
  lemma {:induction false} AddsAt(reg: seq<TypeEntry>, d: EmitDesc, recs: seq<RecDesc>, buf: seq<bv8>, i: nat, j: nat, e: nat)
    requires Walkable(reg, d, recs) && i <= j < e <= |d.pls|
    requires Addable(reg, d, recs, buf, i, e)
    ensures Adds(reg, d, recs, buf, i, e)[j - i] == AddPayload(reg, d.pls[j], recs[j], buf).value
    decreases j - i
  {
    var f := AddPayload(reg, d.pls[i], recs[i], buf).value;
    var rest := Adds(reg, d, recs, buf, i + 1, e);
    if i < j {
      AddsAt(reg, d, recs, buf, i + 1, j, e);
      assert ([f] + rest)[j - i] == rest[j - (i + 1)];
    }
  }

  /** Without structs, an event holds each payload's field, in payload order. */
  lemma {:induction false} FlatEventFields(reg: seq<TypeEntry>, d: EmitDesc, recs: seq<RecDesc>, buf: seq<bv8>,
                                           i: nat, acc: seq<Field>)
    requires Walkable(reg, d, recs) && i <= |d.pls|
    requires forall j :: i <= j < |d.pls| ==> d.pls[j].typeIdx != StructTypeIdx
    requires forall j :: i <= j < |d.pls| ==> AddPayload(reg, d.pls[j], recs[j], buf).Some?
    ensures Payload(reg, d, recs, buf, i, acc) == Some(acc + Adds(reg, d, recs, buf, i, |d.pls|))
    decreases |d.pls| - i
  {
    if i < |d.pls| {
      var f := AddPayload(reg, d.pls[i], recs[i], buf).value;
      FlatEventFields(reg, d, recs, buf, i + 1, acc + [f]);
      assert acc + [f] + Adds(reg, d, recs, buf, i + 1, |d.pls|) == acc + Adds(reg, d, recs, buf, i, |d.pls|);
    } else {
      assert acc + Adds(reg, d, recs, buf, i, |d.pls|) == acc;
    }
  }

  // ---------------------------------------------------------------------
  // What the struct walk returns

  /** Where a run of n scalar members from payload i stops: after n of them, or at plcount. */
  function ScalarEnd(d: EmitDesc, i: nat, n: int): nat
    requires 0 <= n && i <= |d.pls|
  {
    if i + n < |d.pls| then i + n else |d.pls|
  }

  /** Every payload in [i, e) is a scalar that can be added. */
  predicate ScalarRun(reg: seq<TypeEntry>, d: EmitDesc, recs: seq<RecDesc>, buf: seq<bv8>, i: nat, e: nat)
    requires Walkable(reg, d, recs) && e <= |d.pls|
  {
    forall j :: i <= j < e ==> d.pls[j].typeIdx != StructTypeIdx && AddPayload(reg, d.pls[j], recs[j], buf).Some?
  }

  /**
   * With n = sz - count members still to go and every payload it reaches a
   * scalar that can be added, the loop returns the index of the last
   * payload it consumed and appends exactly those payloads' fields.
   */
  lemma {:induction false} StructLoopScalars(reg: seq<TypeEntry>, d: EmitDesc, recs: seq<RecDesc>, buf: seq<bv8>,
                                             sz: int, i: nat, count: nat, acc: seq<Field>)
    requires Walkable(reg, d, recs) && 1 <= i <= |d.pls| && count <= sz
    requires ScalarRun(reg, d, recs, buf, i, ScalarEnd(d, i, sz - count))
    ensures var e := ScalarEnd(d, i, sz - count);
      StructLoop(reg, d, recs, buf, sz, i, count, acc) == (e - 1, acc + Adds(reg, d, recs, buf, i, e))
    decreases |d.pls| - i, 1
  {
    if i < ScalarEnd(d, i, sz - count) {
      StructLoopScalarsStep(reg, d, recs, buf, sz, i, count, acc);
    } else {
      StructLoopStops(reg, d, recs, buf, sz, i, count, acc);
    }
  }

  /** The inductive step of StructLoopScalars: one more scalar payload is added. */
  lemma {:induction false} StructLoopScalarsStep(reg: seq<TypeEntry>, d: EmitDesc, recs: seq<RecDesc>, buf: seq<bv8>,
                                                 sz: int, i: nat, count: nat, acc: seq<Field>)
    requires Walkable(reg, d, recs) && 1 <= i <= |d.pls| && count <= sz
    requires i < ScalarEnd(d, i, sz - count)
    requires ScalarRun(reg, d, recs, buf, i, ScalarEnd(d, i, sz - count))
    ensures var e := ScalarEnd(d, i, sz - count);
      StructLoop(reg, d, recs, buf, sz, i, count, acc) == (e - 1, acc + Adds(reg, d, recs, buf, i, e))
    decreases |d.pls| - i, 0
  {
    var e := ScalarEnd(d, i, sz - count);
    var f := AddPayload(reg, d.pls[i], recs[i], buf).value;
    ScalarStep(reg, d, recs, buf, sz, i, count, acc);
    StructLoopScalars(reg, d, recs, buf, sz, i + 1, count + 1, acc + [f]);
    AddsJoin(reg, d, recs, buf, acc, i, e);
  }

  /**
   * One scalar member that can be added moves the loop on by one payload;
   * the run still to go ends where it did.
   */
  lemma ScalarStep(reg: seq<TypeEntry>, d: EmitDesc, recs: seq<RecDesc>, buf: seq<bv8>,
                   sz: int, i: nat, count: nat, acc: seq<Field>)
    requires Walkable(reg, d, recs) && 1 <= i <= |d.pls| && count <= sz
    requires i < ScalarEnd(d, i, sz - count)
    requires ScalarRun(reg, d, recs, buf, i, ScalarEnd(d, i, sz - count))
    ensures i + 1 <= |d.pls| && count + 1 <= sz
    ensures ScalarEnd(d, i + 1, sz - (count + 1)) == ScalarEnd(d, i, sz - count)
    ensures ScalarRun(reg, d, recs, buf, i + 1, ScalarEnd(d, i, sz - count))
    ensures Addable(reg, d, recs, buf, i, ScalarEnd(d, i, sz - count))
    ensures StructLoop(reg, d, recs, buf, sz, i, count, acc)
            == StructLoop(reg, d, recs, buf, sz, i + 1, count + 1, acc + [AddPayload(reg, d.pls[i], recs[i], buf).value])
  {
  }

  /** With no member left to go, or no payload left, the loop stops at the one before i. */
  lemma StructLoopStops(reg: seq<TypeEntry>, d: EmitDesc, recs: seq<RecDesc>, buf: seq<bv8>,
                        sz: int, i: nat, count: nat, acc: seq<Field>)
    requires Walkable(reg, d, recs) && 1 <= i <= |d.pls| && count <= sz
    requires ScalarEnd(d, i, sz - count) <= i
    ensures StructLoop(reg, d, recs, buf, sz, i, count, acc) == (i - 1, acc + Adds(reg, d, recs, buf, i, i))
  {
    assert acc + Adds(reg, d, recs, buf, i, i) == acc;
  }

  /** Appending the first added field and then the rest is appending the whole run. */
  lemma AddsJoin(reg: seq<TypeEntry>, d: EmitDesc, recs: seq<RecDesc>, buf: seq<bv8>, acc: seq<Field>, i: nat, e: nat)
    requires Walkable(reg, d, recs) && i < e <= |d.pls|
    requires ScalarRun(reg, d, recs, buf, i, e)
    ensures acc + [AddPayload(reg, d.pls[i], recs[i], buf).value] + Adds(reg, d, recs, buf, i + 1, e)
            == acc + Adds(reg, d, recs, buf, i, e)
  {
  }

  /**
   * dt_etw_trace_struct returns the index of the last payload it consumed:
   * a struct whose count is 0 or negative consumes nothing and has no
   * members; one of sz scalar members that can all be added ends sz
   * payloads after its header (or at the last payload, when fewer remain)
   * and holds exactly those payloads' fields, in order.
   */
  lemma StructWalkScalars(reg: seq<TypeEntry>, d: EmitDesc, recs: seq<RecDesc>, buf: seq<bv8>, idx: nat)
    requires Walkable(reg, d, recs) && idx < |d.pls|
    ensures StructSize(buf, recs[idx]) <= 0 ==> StructWalk(reg, d, recs, buf, idx) == (idx, [])
    ensures var sz := StructSize(buf, recs[idx]);
      0 <= sz && (forall j :: idx < j < ScalarEnd(d, idx + 1, sz) ==>
                    d.pls[j].typeIdx != StructTypeIdx && AddPayload(reg, d.pls[j], recs[j], buf).Some?) ==>
      var e := ScalarEnd(d, idx + 1, sz);
      StructWalk(reg, d, recs, buf, idx) == (e - 1, Adds(reg, d, recs, buf, idx + 1, e))
  {
    StructWalkFrom(reg, d, recs, buf, StructSize(buf, recs[idx]), idx);
  }

  /** The same for the loop started right after the header at idx with any count sz. */
  lemma StructWalkFrom(reg: seq<TypeEntry>, d: EmitDesc, recs: seq<RecDesc>, buf: seq<bv8>, sz: int, idx: nat)
    requires Walkable(reg, d, recs) && idx < |d.pls|
    ensures sz <= 0 ==> StructLoop(reg, d, recs, buf, sz, idx + 1, 0, []) == (idx, [])
    ensures 0 <= sz && (forall j :: idx < j < ScalarEnd(d, idx + 1, sz) ==>
                          d.pls[j].typeIdx != StructTypeIdx && AddPayload(reg, d.pls[j], recs[j], buf).Some?) ==>
      var e := ScalarEnd(d, idx + 1, sz);
      StructLoop(reg, d, recs, buf, sz, idx + 1, 0, []) == (e - 1, Adds(reg, d, recs, buf, idx + 1, e))
  {
    if sz <= 0 {
      StructLoopStops(reg, d, recs, buf, 0, idx + 1, 0, []);
      assert StructLoop(reg, d, recs, buf, sz, idx + 1, 0, []) == (idx, []);
    }
    if 0 <= sz && forall j :: idx < j < ScalarEnd(d, idx + 1, sz) ==>
                    d.pls[j].typeIdx != StructTypeIdx && AddPayload(reg, d.pls[j], recs[j], buf).Some? {
      ScalarsFromHeader(reg, d, recs, buf, sz, idx);
    }
  }

  /** The scalar case of StructWalkFrom, with its condition as a precondition. */
  lemma ScalarsFromHeader(reg: seq<TypeEntry>, d: EmitDesc, recs: seq<RecDesc>, buf: seq<bv8>, sz: int, idx: nat)
    requires Walkable(reg, d, recs) && idx < |d.pls| && 0 <= sz
    requires forall j :: idx < j < ScalarEnd(d, idx + 1, sz) ==>
      d.pls[j].typeIdx != StructTypeIdx && AddPayload(reg, d.pls[j], recs[j], buf).Some?
    ensures var e := ScalarEnd(d, idx + 1, sz);
      StructLoop(reg, d, recs, buf, sz, idx + 1, 0, []) == (e - 1, Adds(reg, d, recs, buf, idx + 1, e))
  {
    var e := ScalarEnd(d, idx + 1, sz);
    assert ScalarEnd(d, idx + 1, sz - 0) == e;
    StructLoopScalars(reg, d, recs, buf, sz, idx + 1, 0, []);
    assert [] + Adds(reg, d, recs, buf, idx + 1, e) == Adds(reg, d, recs, buf, idx + 1, e);
  }

  /**
   * A nested header is one member: a struct of count 1 whose member is a
   * nested struct ends where the nested walk ends (plcount included) and
   * holds that one struct field.
   */
  lemma NestedStructWalk(reg: seq<TypeEntry>, d: EmitDesc, recs: seq<RecDesc>, buf: seq<bv8>, idx: nat)
    requires Walkable(reg, d, recs) && idx + 1 < |d.pls|
    requires StructSize(buf, recs[idx]) == 1 && d.pls[idx + 1].typeIdx == StructTypeIdx
    ensures var sub := StructWalk(reg, d, recs, buf, idx + 1);
      StructWalk(reg, d, recs, buf, idx) == (sub.0, [Struct(d.pls[idx + 1].name, sub.1)])
  {
    assert StructWalk(reg, d, recs, buf, idx) == StructLoop(reg, d, recs, buf, 1, idx + 1, 0, []);
    StructLastMember(reg, d, recs, buf, 1, idx + 1, 0, []);
    assert [] + [Struct(d.pls[idx + 1].name, StructWalk(reg, d, recs, buf, idx + 1).1)]
        == [Struct(d.pls[idx + 1].name, StructWalk(reg, d, recs, buf, idx + 1).1)];
  }

  /** The last member still to go, when it is a nested header, ends the loop where its own walk ends. */
  lemma StructLastMember(reg: seq<TypeEntry>, d: EmitDesc, recs: seq<RecDesc>, buf: seq<bv8>,
                         sz: int, i: nat, count: nat, acc: seq<Field>)
    requires Walkable(reg, d, recs) && 1 <= i < |d.pls| && count + 1 == sz
    requires d.pls[i].typeIdx == StructTypeIdx
    ensures var sub := StructWalk(reg, d, recs, buf, i);
      StructLoop(reg, d, recs, buf, sz, i, count, acc) == (sub.0, acc + [Struct(d.pls[i].name, sub.1)])
  {
    var sub := StructWalk(reg, d, recs, buf, i);
    var more := acc + [Struct(d.pls[i].name, sub.1)];
    assert StructLoop(reg, d, recs, buf, sz, i, count, acc) == StructLoop(reg, d, recs, buf, sz, sub.0 + 1, count + 1, more);
  }

  // ---------------------------------------------------------------------
  // Properties of dt_etw_trace

  /**
   * The status depends only on the records: a mismatch when there are fewer
   * records than payloads or one of them is foreign, otherwise all plcount
   * records are consumed, whether or not an event is written.
   */
  lemma EmitStatus(reg: seq<TypeEntry>, d: EmitDesc, recs: seq<RecDesc>, buf: seq<bv8>, valid: bool, enabled: bool)
    requires TypesInRange(reg, d)
    ensures var r := EmitSpec(reg, d, recs, buf, valid, enabled);
      && (r.0 == Mismatch <==> |d.pls| > |recs| || ForeignRecord(d, recs))
      && (r.0 != Mismatch ==> r.0 == Consumed(|d.pls|))
      && (r.0 == Mismatch ==> r.1.None?)
  {
  }

  /** Nothing is written for a provider that could not be created or that nobody listens to. */
  lemma SilentProviderWritesNothing(reg: seq<TypeEntry>, d: EmitDesc, recs: seq<RecDesc>, buf: seq<bv8>, valid: bool, enabled: bool)
    requires TypesInRange(reg, d)
    requires !valid || !enabled
    ensures EmitSpec(reg, d, recs, buf, valid, enabled).1.None?
  {
  }

  /**
   * An event is written exactly when records and provider are in order and
   * every payload is a struct header or can be added; it then carries the
   * descriptor's event name, level and keyword.
   */
  lemma EmitWritesIffComplete(reg: seq<TypeEntry>, d: EmitDesc, recs: seq<RecDesc>, buf: seq<bv8>, valid: bool, enabled: bool)
    requires TypesInRange(reg, d)
    ensures var r := EmitSpec(reg, d, recs, buf, valid, enabled);
      r.1.Some? <==> (&& |d.pls| <= |recs| && !ForeignRecord(d, recs) && valid && enabled
                      && AllAddOk(reg, d, recs, buf, 0, |d.pls|))
    ensures var r := EmitSpec(reg, d, recs, buf, valid, enabled);
      r.1.Some? ==> r.1.value.name == d.eventName && r.1.value.level == d.level && r.1.value.keyword == d.keyword
  {
    if |d.pls| <= |recs| {
      PayloadWritesIffAllAdded(reg, d, recs, buf, 0, []);
    }
  }

  /**
   * FINDING, as written: a struct whose member fails to be added still gets
   * its event written, with the struct cut short.  Payload 0 is a struct of
   * one member; payload 1, a four-byte integer, arrives as a record of size
   * 0, which its adder refuses.
   */
  lemma FailureInStructStillWritesWith(reg: seq<TypeEntry>)
    requires |reg| > 10 && reg[StructTypeIdx] == StructEntry && reg[10].add == Some(ScalarAdd(4))
    ensures var d := EmitDesc("Evt", 4, 1, [EmitPayload(StructTypeIdx, "s"), EmitPayload(10, "x")]);
      var recs := [RecDesc(true, 4, 0), RecDesc(true, 0, 4)];
      var buf: seq<bv8> := [1, 0, 0, 0];
      && Walkable(reg, d, recs)
      && AddPayload(reg, d.pls[1], recs[1], buf).None?
      && EmitWith(reg, d, recs, buf, true, true, true) == (Consumed(2), Some(Event("Evt", 4, 1, [Struct("s", [])])))
      && EmitSpec(reg, d, recs, buf, true, true) == (Consumed(2), None)
  {
    var d := EmitDesc("Evt", 4, 1, [EmitPayload(StructTypeIdx, "s"), EmitPayload(10, "x")]);
    var recs := [RecDesc(true, 4, 0), RecDesc(true, 0, 4)];
    var buf: seq<bv8> := [1, 0, 0, 0];
    assert LoadU32(buf, 0) == 1;
    assert StructSize(buf, recs[0]) == 1;
    assert AddPayload(reg, d.pls[1], recs[1], buf).None?;
    assert StructWalk(reg, d, recs, buf, 0) == (2, []);
    assert !ForeignRecord(d, recs);
    var written: seq<Field> := [] + [Struct("s", [])];
    assert written == [Struct("s", [])];
    assert TopLoop(reg, d, recs, buf, 3, written) == Some(written);
    assert TopLoop(reg, d, recs, buf, 0, []) == Some([Struct("s", [])]);
    assert Payload(reg, d, recs, buf, 0, []) == None;
    assert EmitWith(reg, d, recs, buf, true, true, true) == (Consumed(2), Some(Event("Evt", 4, 1, [Struct("s", [])])));
    assert EmitSpec(reg, d, recs, buf, true, true) == (Consumed(2), None);
  }

  /** The same with the source's own registry, whose entry 10 is etw_uint32. */
  lemma FailureInStructStillWrites()
    ensures var d := EmitDesc("Evt", 4, 1, [EmitPayload(StructTypeIdx, "s"), EmitPayload(10, "x")]);
      var recs := [RecDesc(true, 4, 0), RecDesc(true, 0, 4)];
      var buf: seq<bv8> := [1, 0, 0, 0];
      && Types[10].name == "etw_uint32"
      && EmitWith(Types, d, recs, buf, true, true, true) == (Consumed(2), Some(Event("Evt", 4, 1, [Struct("s", [])])))
      && EmitSpec(Types, d, recs, buf, true, true) == (Consumed(2), None)
  {
    assert Types[10] == IntEntry("etw_uint32", TypeUInt32, 4);
    FailureInStructStillWritesWith(Types);
  }
}
