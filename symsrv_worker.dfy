/**
 * One request of the symbol server's worker loop (dt_symsrv_thread): the
 * driver asks for the next function of a module, optionally filtered by
 * name; the worker (re)loads the module's function map when needed, resumes
 * its cursor, and answers with the next function whose names and parameter
 * types fit the reply buffer, paging with the request's index.
 *
 * The reply's fixed fields are fields of the worker; its names area is the
 * part of the 4096-byte buffer from `hdr` (the size of TRACE_SYM_REPLY) on.
 */
module SymWorker {
  import opened Wrappers
  import opened SymFormat
  import opened SymCache

  const BufferSize: nat := 4096
  /** The last byte of the buffer, where `limit` points. */
  const Limit: nat := BufferSize - 1
  /** (ULONG)-1: a request to ignore, and a reply carrying no function. */
  const NoResult: U32 := 0xFFFF_FFFF

  /** What the worker reads from TRACE_SYM_REQUEST; the PDB signature goes only to the loader. */
  datatype Request = Request(index: U32, moduleBase: U64, isNtosKrnl: bool, nameFilter: string)

  /** TRACE_SYM_REPLY's fixed fields. */
  datatype Reply = Reply(index: U32, rva: U32, size: U32, vaArgs: bool, nextEntryOffset: U32)

  // ---------------------------------------------------------------------
  // The names area

  /** Bytes a list of strings takes as NUL-terminated strings. */
  function SumLen(strs: seq<string>): nat
  {
    if strs == [] then 0 else |strs[0]| + 1 + SumLen(strs[1..])
  }

  /** The strings one after another, each with its NUL. */
  function Body(strs: seq<string>): (r: seq<char>)
    ensures |r| == SumLen(strs)
  {
    if strs == [] then [] else strs[0] + ['\0'] + Body(strs[1..])
  }

  /** A multi-string: the strings, then an empty string. */
  function MultiString(strs: seq<string>): seq<char>
  {
    Body(strs) + ['\0']
  }

  /** The names area of a reply for f: its names, then its parameter types. */
  function Serialized(f: FunctionRecord): seq<char>
  {
    MultiString(AllNames(f)) + MultiString(f.paramTypes)
  }

  /** The writer's state while it fills the names area: the buffer, `names` and `overflow`. */
  datatype Writer = Writer(buf: seq<char>, names: nat, overflow: bool)

  predicate Sized(w: Writer)
  {
    |w.buf| == BufferSize && w.names <= BufferSize
  }

  /** addToNames: copies s and its NUL when they end before `limit`, else flags an overflow. */
  function AddToNames(w: Writer, s: string): (r: Writer)
    requires Sized(w)
    ensures Sized(r)
  {
    var len := |s| + 1;
    if w.names + len < Limit then Writer(w.buf[..w.names] + s + ['\0'] + w.buf[w.names + len..], w.names + len, w.overflow)
    else w.(overflow := true)
  }

  /** terminateMultiString: writes the empty string when there is room at or before `limit`. */
  function Terminate(w: Writer): (r: Writer)
    requires Sized(w)
    ensures Sized(r)
  {
    if w.names <= Limit then Writer(w.buf[w.names := '\0'], w.names + 1, w.overflow)
    else w.(overflow := true)
  }

  /** addToNames over a list of strings in order. */
  function AddAll(w: Writer, strs: seq<string>): (r: Writer)
    requires Sized(w)
    ensures Sized(r)
    decreases |strs|
  {
    if strs == [] then w else AddAll(AddToNames(w, strs[0]), strs[1..])
  }

  /** The whole names area for f, as the code writes it from position hdr. */
  function WriteEntry(b: seq<char>, hdr: nat, f: FunctionRecord): (r: Writer)
    requires |b| == BufferSize && hdr <= BufferSize
    ensures Sized(r)
  {
    Terminate(AddAll(Terminate(AddAll(Writer(b, hdr, false), AllNames(f))), f.paramTypes))
  }

  /** The entry fits: the names area ends within the buffer, by the code's two limits. */
  predicate Fits(hdr: nat, f: FunctionRecord)
  {
    hdr + |Serialized(f)| <= if f.paramTypes == [] then BufferSize else Limit
  }

  /**
   * addToNames over a list: it overflows exactly when the strings would end
   * at or beyond `limit`, `names` only grows and stays short of `limit`, and
   * without an overflow it ends just after the strings.
   */
  lemma {:induction false} AddAllCounts(w: Writer, strs: seq<string>)
    requires Sized(w)
    ensures var r := AddAll(w, strs);
      && r.overflow == (w.overflow || (strs != [] && w.names + SumLen(strs) >= Limit))
      && w.names <= r.names && (r.names == w.names || r.names < Limit)
      && (!r.overflow ==> r.names == w.names + SumLen(strs))
    decreases |strs|
  {
    if strs != [] {
      AddAllCounts(AddToNames(w, strs[0]), strs[1..]);
    }
  }

  /** addToNames over a list never touches the bytes before `names`. */
  lemma {:induction false} AddAllPrefix(w: Writer, strs: seq<string>)
    requires Sized(w)
    ensures AddAll(w, strs).buf[..w.names] == w.buf[..w.names]
    decreases |strs|
  {
    if strs != [] {
      var n := w.names;
      var w1 := AddToNames(w, strs[0]);
      AddAllPrefix(w1, strs[1..]);
      var r := AddAll(w1, strs[1..]);
      assert w1.buf[..n] == w.buf[..n];
      assert r.buf[..n] == r.buf[..w1.names][..n];
    }
  }

  /** Without an overflow, addToNames over a list writes the strings at `names` and nothing else. */
  lemma {:induction false} AddAllWrites(w: Writer, strs: seq<string>)
    requires Sized(w) && !AddAll(w, strs).overflow
    ensures w.names + SumLen(strs) <= BufferSize
    ensures AddAll(w, strs).buf == w.buf[..w.names] + Body(strs) + w.buf[w.names + SumLen(strs)..]
    decreases |strs|
  {
    AddAllCounts(w, strs);
    if strs != [] {
      var s := strs[0];
      var n, len := w.names, |strs[0]| + 1;
      var w1 := AddToNames(w, s);
      assert n + len < Limit;
      AddAllWrites(w1, strs[1..]);
      var rest := SumLen(strs[1..]);
      assert w1.buf[..n + len] == w.buf[..n] + (s + ['\0']);
      assert w1.buf[n + len + rest..] == w.buf[n + len + rest..];
      assert Body(strs) == s + ['\0'] + Body(strs[1..]);
      Splice(w.buf, n, s + ['\0'], Body(strs[1..]), w1.buf, AddAll(w, strs).buf);
    }
  }

  /**
   * Writing y after x, where x was written at n over b, leaves x + y at n
   * over b.
   */
  lemma Splice(b: seq<char>, n: nat, x: seq<char>, y: seq<char>, m: seq<char>, r: seq<char>)
    requires |m| == |b| && n + |x| + |y| <= |b|
    requires m[..n + |x|] == b[..n] + x
    requires m[n + |x| + |y|..] == b[n + |x| + |y|..]
    requires r == m[..n + |x|] + y + m[n + |x| + |y|..]
    ensures r == b[..n] + (x + y) + b[n + |x| + |y|..]
  {
  }

  /** One terminator after a list leaves the buffer in front of it alone. */
  lemma TerminateEffect(w: Writer)
    requires Sized(w)
    ensures var r := Terminate(w);
      && r.overflow == (w.overflow || w.names > Limit)
      && w.names <= r.names
      && r.buf[..w.names] == w.buf[..w.names]
      && (w.names <= Limit ==> r.names == w.names + 1 && r.buf == w.buf[..w.names] + ['\0'] + w.buf[w.names + 1..])
  {
  }

  /** Serialising an entry overflows exactly when it does not fit. */
  lemma WriteEntryOverflow(b: seq<char>, hdr: nat, f: FunctionRecord)
    requires |b| == BufferSize && hdr <= Limit
    ensures WriteEntry(b, hdr, f).overflow <==> !Fits(hdr, f)
  {
    var names, params := AllNames(f), f.paramTypes;
    var w0 := Writer(b, hdr, false);
    var w1 := AddAll(w0, names);
    AddAllCounts(w0, names);
    var w2 := Terminate(w1);
    TerminateEffect(w1);
    var w3 := AddAll(w2, params);
    AddAllCounts(w2, params);
    TerminateEffect(w3);
    assert |Serialized(f)| == SumLen(names) + 1 + SumLen(params) + 1;
  }

  /** Serialising an entry never touches the bytes before `hdr`. */
  lemma WriteEntryPrefix(b: seq<char>, hdr: nat, f: FunctionRecord)
    requires |b| == BufferSize && hdr <= Limit
    ensures WriteEntry(b, hdr, f).buf[..hdr] == b[..hdr]
  {
    var names, params := AllNames(f), f.paramTypes;
    var w0 := Writer(b, hdr, false);
    var w1 := AddAll(w0, names);
    AddAllCounts(w0, names);
    AddAllPrefix(w0, names);
    var w2 := Terminate(w1);
    TerminateEffect(w1);
    var w3 := AddAll(w2, params);
    AddAllCounts(w2, params);
    AddAllPrefix(w2, params);
    var w4 := Terminate(w3);
    TerminateEffect(w3);
    assert w2.buf[..hdr] == w2.buf[..w1.names][..hdr];
    assert w3.buf[..hdr] == w3.buf[..w2.names][..hdr];
    assert w4.buf[..hdr] == w4.buf[..w3.names][..hdr];
  }

  /** A list and its terminator, written without an overflow, leave the multi-string at `names`. */
  lemma MultiWrites(w: Writer, strs: seq<string>)
    requires Sized(w) && !Terminate(AddAll(w, strs)).overflow
    ensures var r, m := Terminate(AddAll(w, strs)), MultiString(strs);
      && r.names == w.names + |m|
      && r.buf == w.buf[..w.names] + m + w.buf[w.names + |m|..]
  {
    var a := AddAll(w, strs);
    AddAllCounts(w, strs);
    TerminateEffect(a);
    AddAllWrites(w, strs);
    var n, k := w.names, SumLen(strs);
    assert a.buf[..n + k] == w.buf[..n] + Body(strs);
    assert a.buf[n + k + 1..] == w.buf[n + k + 1..];
  }

  /** A serialised entry that fits leaves exactly the entry's multi-strings at `hdr`. */
  lemma WriteEntryLayout(b: seq<char>, hdr: nat, f: FunctionRecord)
    requires |b| == BufferSize && hdr <= Limit && Fits(hdr, f)
    ensures WriteEntry(b, hdr, f).buf == b[..hdr] + Serialized(f) + b[hdr + |Serialized(f)|..]
  {
    WriteEntryOverflow(b, hdr, f);
    var names, params := AllNames(f), f.paramTypes;
    var m1, m2 := MultiString(names), MultiString(params);
    var w1 := Terminate(AddAll(Writer(b, hdr, false), names));
    AddAllCounts(w1, params);
    TerminateEffect(AddAll(w1, params));
    MultiWrites(Writer(b, hdr, false), names);
    MultiWrites(w1, params);
    SpliceParts(b, hdr, m1, m2, w1.buf);
    Splice(b, hdr, m1, m2, w1.buf, WriteEntry(b, hdr, f).buf);
  }

  /** A buffer with x written at n over b agrees with b around x. */
  lemma SpliceParts(b: seq<char>, n: nat, x: seq<char>, y: seq<char>, m: seq<char>)
    requires n + |x| + |y| <= |b|
    requires m == b[..n] + x + b[n + |x|..]
    ensures m[..n + |x|] == b[..n] + x
    ensures m[n + |x| + |y|..] == b[n + |x| + |y|..]
  {
  }

  /**
   * Serialising an entry overflows exactly when it does not fit, never
   * touches the bytes before `hdr`, and when it fits leaves exactly the
   * entry's multi-strings at `hdr`.
   */
  lemma WriteEntryEffect(b: seq<char>, hdr: nat, f: FunctionRecord)
    requires |b| == BufferSize && hdr <= Limit
    ensures var w := WriteEntry(b, hdr, f);
      && (w.overflow <==> !Fits(hdr, f))
      && w.buf[..hdr] == b[..hdr]
      && (!w.overflow ==> w.buf == b[..hdr] + Serialized(f) + b[hdr + |Serialized(f)|..])
  {
    WriteEntryOverflow(b, hdr, f);
    WriteEntryPrefix(b, hdr, f);
    if Fits(hdr, f) {
      WriteEntryLayout(b, hdr, f);
    }
  }

  // ---------------------------------------------------------------------
  // The request step

  /** The worker's state between requests, the buffer included. */
  datatype WorkerState = WorkerState(loadedBase: U64, usedFilter: string, funcMap: Entries,
                                     cur: nat, reply: Reply, buf: seq<char>)

  /** The filter a request names: none when it is empty or a glob pattern. */
  function NormalFilter(nameFilter: string, isGlob: string -> bool): (r: string)
    ensures r == [] <==> nameFilter == [] || isGlob(nameFilter)
    ensures r != [] ==> r == nameFilter
  {
    if nameFilter == [] || isGlob(nameFilter) then [] else nameFilter
  }

  /** The map is reloaded: another module, another filter, or nothing loaded. */
  function Reloads(s: WorkerState, req: Request, filter: string): (r: bool)
    ensures s.funcMap == [] ==> r
    ensures !r ==> s.loadedBase == req.moduleBase && s.usedFilter == filter
  {
    s.loadedBase != req.moduleBase || s.usedFilter != filter || s.funcMap == []
  }

  /** A function the filter selects: every function without a filter, else one with a name equal to it. */
  function Selected(filter: string, f: FunctionRecord): (r: bool)
    ensures r <==> filter == [] || f.name == filter || filter in f.altNames
  {
    var p := (n: string) => n == filter;
    AnyNameIs(f, p, filter);
    filter == [] || AnyNameMatches(f, p)
  }

  /** Entry j would be served: it is selected and its names area fits. */
  function Eligible(m: Entries, filter: string, hdr: nat, j: nat): (r: bool)
    requires j < |m|
    ensures r ==> hdr + |Serialized(m[j].1)| <= BufferSize
    ensures r && filter != [] ==> m[j].1.name == filter || filter in m[j].1.altNames
  {
    Selected(filter, m[j].1) && Fits(hdr, m[j].1)
  }

  /**
   * The for loop over the map from position i: the cursor it leaves, the
   * reply and the buffer.  A skipped entry may still have written part of
   * its names.
   */
  function Scan(m: Entries, filter: string, hdr: nat, index: U32, i: nat, reply: Reply, b: seq<char>): (r: (nat, Reply, seq<char>))
    requires |b| == BufferSize && hdr <= Limit && i <= |m|
    ensures i <= r.0 <= |m| && |r.2| == BufferSize
    decreases |m| - i
  {
    if i == |m| then (i, reply, b)
    else if !Selected(filter, m[i].1) then Scan(m, filter, hdr, index, i + 1, reply, b)
    else
      var w := WriteEntry(b, hdr, m[i].1);
      if w.overflow then Scan(m, filter, hdr, index, i + 1, reply, w.buf)
      else (i + 1, Reply((index + 1) % 0x1_0000_0000, m[i].0, m[i].1.size, m[i].1.vaArgs, 0), w.buf)
  }

  /** The request index the step works with: 0 after a reload. */
  function StepIndex(s: WorkerState, req: Request, isGlob: string -> bool): U32
  {
    if Reloads(s, req, NormalFilter(req.nameFilter, isGlob)) then 0 else req.index
  }

  /** Where the scan starts: the front after a reload or for index 0, else where the last one stopped. */
  function StartAt(s: WorkerState, req: Request, isGlob: string -> bool): nat
  {
    if StepIndex(s, req, isGlob) == 0 then 0 else s.cur
  }

  /** The map the step walks. */
  function StepMap(s: WorkerState, req: Request, loaded: Entries, isGlob: string -> bool): Entries
  {
    if Reloads(s, req, NormalFilter(req.nameFilter, isGlob)) then loaded else s.funcMap
  }

  /** One state has its cursor within its map and a buffer of the right size. */
  predicate Invariant(s: WorkerState)
  {
    s.cur <= |s.funcMap| && |s.buf| == BufferSize
  }

  /**
   * One iteration of dt_symsrv_thread's loop on a request, given the map
   * dt_symsrv_load_functions would build for it.
   */
  function StepSpec(s: WorkerState, req: Request, loaded: Entries, isGlob: string -> bool, hdr: nat): (r: WorkerState)
    requires Invariant(s) && hdr <= Limit
    ensures Invariant(r)
  {
    if req.index == NoResult then s
    else
      var filter := NormalFilter(req.nameFilter, isGlob);
      var reload := Reloads(s, req, filter);
      var m := StepMap(s, req, loaded, isGlob);
      var base := if reload then req.moduleBase else s.loadedBase;
      var (cur, reply, b) := Scan(m, filter, hdr, StepIndex(s, req, isGlob), StartAt(s, req, isGlob),
                                  s.reply.(index := NoResult), s.buf);
      WorkerState(base, filter, m, cur, reply, b)
  }

  /** The first eligible entry from i on, or |m| when there is none. */
  function FirstEligible(m: Entries, filter: string, hdr: nat, i: nat): (j: nat)
    requires i <= |m|
    ensures i <= j <= |m|
    ensures j < |m| ==> Eligible(m, filter, hdr, j)
    ensures forall k :: i <= k < j ==> !Eligible(m, filter, hdr, k)
    decreases |m| - i
  {
    if i == |m| || Eligible(m, filter, hdr, i) then i else FirstEligible(m, filter, hdr, i + 1)
  }

  /** The scan never touches the reply's header. */
  lemma {:induction false} ScanKeepsHeader(m: Entries, filter: string, hdr: nat, index: U32, i: nat,
                                           reply: Reply, b: seq<char>)
    requires |b| == BufferSize && hdr <= Limit && i <= |m|
    ensures Scan(m, filter, hdr, index, i, reply, b).2[..hdr] == b[..hdr]
    decreases |m| - i
  {
    if i < |m| {
      if !Selected(filter, m[i].1) {
        ScanKeepsHeader(m, filter, hdr, index, i + 1, reply, b);
      } else {
        var w := WriteEntry(b, hdr, m[i].1);
        WriteEntryPrefix(b, hdr, m[i].1);
        if w.overflow {
          ScanKeepsHeader(m, filter, hdr, index, i + 1, reply, w.buf);
        }
      }
    }
  }

  /** Without an eligible entry from i on, the scan reaches the end and leaves the reply alone. */
  lemma {:induction false} ScanWithoutEligible(m: Entries, filter: string, hdr: nat, index: U32, i: nat,
                                               reply: Reply, b: seq<char>)
    requires |b| == BufferSize && hdr <= Limit && i <= |m|
    requires FirstEligible(m, filter, hdr, i) == |m|
    ensures var r := Scan(m, filter, hdr, index, i, reply, b); r.0 == |m| && r.1 == reply
    decreases |m| - i
  {
    if i < |m| {
      var w := WriteEntry(b, hdr, m[i].1);
      WriteEntryOverflow(b, hdr, m[i].1);
      ScanWithoutEligible(m, filter, hdr, index, i + 1, reply, if Selected(filter, m[i].1) then w.buf else b);
    }
  }

  /**
   * The scan serves the first eligible entry j from i on: the cursor goes
   * just past it, the reply describes it with the next page index, and the
   * names area holds its multi-strings.
   */
  lemma {:induction false} ScanServes(m: Entries, filter: string, hdr: nat, index: U32, i: nat,
                                      reply: Reply, b: seq<char>)
    requires |b| == BufferSize && hdr <= Limit && i <= |m|
    requires FirstEligible(m, filter, hdr, i) < |m|
    ensures var r, j := Scan(m, filter, hdr, index, i, reply, b), FirstEligible(m, filter, hdr, i);
      && r.0 == j + 1
      && r.1 == Reply((index + 1) % 0x1_0000_0000, m[j].0, m[j].1.size, m[j].1.vaArgs, 0)
      && hdr + |Serialized(m[j].1)| <= BufferSize
      && r.2[hdr..hdr + |Serialized(m[j].1)|] == Serialized(m[j].1)
    decreases |m| - i
  {
    var w := WriteEntry(b, hdr, m[i].1);
    WriteEntryOverflow(b, hdr, m[i].1);
    if Eligible(m, filter, hdr, i) {
      var s := Serialized(m[i].1);
      WriteEntryLayout(b, hdr, m[i].1);
      assert w.buf[hdr..hdr + |s|] == s;
    } else {
      ScanServes(m, filter, hdr, index, i + 1, reply, if Selected(filter, m[i].1) then w.buf else b);
    }
  }

  /**
   * The scan serves the first eligible entry from i on, or none: the cursor
   * goes just past the entry served, the reply describes it with the next
   * page index, and the names area holds its multi-strings; without one the
   * cursor reaches the end and the reply is left as it was.
   */
  lemma ScanServesFirstEligible(m: Entries, filter: string, hdr: nat, index: U32, i: nat,
                                reply: Reply, b: seq<char>)
    requires |b| == BufferSize && hdr <= Limit && i <= |m|
    ensures var r, j := Scan(m, filter, hdr, index, i, reply, b), FirstEligible(m, filter, hdr, i);
      && (j == |m| ==> r.0 == |m| && r.1 == reply)
      && (j < |m| ==>
           && r.0 == j + 1
           && r.1 == Reply((index + 1) % 0x1_0000_0000, m[j].0, m[j].1.size, m[j].1.vaArgs, 0)
           && hdr + |Serialized(m[j].1)| <= BufferSize
           && r.2[hdr..hdr + |Serialized(m[j].1)|] == Serialized(m[j].1))
  {
    if FirstEligible(m, filter, hdr, i) == |m| {
      ScanWithoutEligible(m, filter, hdr, index, i, reply, b);
    } else {
      ScanServes(m, filter, hdr, index, i, reply, b);
    }
  }

  /** An ignored request (index (ULONG)-1) changes nothing. */
  lemma IgnoredRequest(s: WorkerState, req: Request, loaded: Entries, isGlob: string -> bool, hdr: nat)
    requires Invariant(s) && hdr <= Limit
    requires req.index == NoResult
    ensures StepSpec(s, req, loaded, isGlob, hdr) == s
  {
  }

  /**
   * Any other request keeps its normalised filter, reloads the map exactly
   * when the module or the filter differs or nothing is loaded, and leaves
   * the reply's header in the buffer alone.
   */
  lemma StepReloads(s: WorkerState, req: Request, loaded: Entries, isGlob: string -> bool, hdr: nat)
    requires Invariant(s) && hdr <= Limit
    requires req.index != NoResult
    ensures var r := StepSpec(s, req, loaded, isGlob, hdr);
      var filter := NormalFilter(req.nameFilter, isGlob);
      && r.usedFilter == filter
      && (Reloads(s, req, filter) ==> r.funcMap == loaded && r.loadedBase == req.moduleBase)
      && (!Reloads(s, req, filter) ==> r.funcMap == s.funcMap && r.loadedBase == s.loadedBase)
      && r.buf[..hdr] == s.buf[..hdr]
  {
    var filter := NormalFilter(req.nameFilter, isGlob);
    ScanKeepsHeader(StepMap(s, req, loaded, isGlob), filter, hdr, StepIndex(s, req, isGlob),
                    StartAt(s, req, isGlob), s.reply.(index := NoResult), s.buf);
  }

  /**
   * Pagination: a request serves the first eligible function from where it
   * starts, with reply index Index + 1 (modulo 2^32) and the cursor just past
   * it; with none left the cursor reaches the end and the reply index is
   * (ULONG)-1.
   */
  lemma StepPaginates(s: WorkerState, req: Request, loaded: Entries, isGlob: string -> bool, hdr: nat)
    requires Invariant(s) && hdr <= Limit
    requires req.index != NoResult
    ensures var r := StepSpec(s, req, loaded, isGlob, hdr);
      var (m, start) := (r.funcMap, StartAt(s, req, isGlob));
      && start <= |m|
      && var j := FirstEligible(m, r.usedFilter, hdr, start);
      && (j == |m| ==> r.cur == |m| && r.reply.index == NoResult)
      && (j < |m| ==>
           && r.cur == j + 1
           && r.reply == Reply((StepIndex(s, req, isGlob) + 1) % 0x1_0000_0000, m[j].0, m[j].1.size, m[j].1.vaArgs, 0)
           && r.buf[hdr..hdr + |Serialized(m[j].1)|] == Serialized(m[j].1))
  {
    var filter := NormalFilter(req.nameFilter, isGlob);
    ScanServesFirstEligible(StepMap(s, req, loaded, isGlob), filter, hdr, StepIndex(s, req, isGlob),
                            StartAt(s, req, isGlob), s.reply.(index := NoResult), s.buf);
  }

  /**
   * With a filter, a function is served only if one of its names equals
   * the filter.
   */
  lemma FilteredRepliesMatch(m: Entries, filter: string, hdr: nat, j: nat)
    requires j < |m| && filter != [] && Eligible(m, filter, hdr, j)
    ensures exists k :: 0 <= k < |AllNames(m[j].1)| && AllNames(m[j].1)[k] == filter
  {
    var k :| 0 <= k < |AllNames(m[j].1)| && (n => n == filter)(AllNames(m[j].1)[k]);
  }

  /**
   * A follow-up request for the same module and filter, with a non-zero
   * index, resumes right after the function the previous request served.
   */
  lemma NextPageResumes(s: WorkerState, req: Request, loaded: Entries, isGlob: string -> bool, hdr: nat,
                        req2: Request, loaded2: Entries)
    requires Invariant(s) && hdr <= Limit
    requires req.index != NoResult && req2.index != NoResult && req2.index != 0
    requires req2.moduleBase == req.moduleBase && req2.nameFilter == req.nameFilter
    ensures var r := StepSpec(s, req, loaded, isGlob, hdr);
      r.funcMap != [] ==>
        StartAt(r, req2, isGlob) == r.cur && StepMap(r, req2, loaded2, isGlob) == r.funcMap
  {
    var r := StepSpec(s, req, loaded, isGlob, hdr);
    StepReloads(s, req, loaded, isGlob, hdr);
    if r.funcMap != [] {
      assert r.loadedBase == req.moduleBase;
      assert !Reloads(r, req2, NormalFilter(req2.nameFilter, isGlob));
    }
  }

  // ---------------------------------------------------------------------
  // The worker

  /** The worker thread's state: the loaded module, the filter, the map, the cursor and the buffer. */
  class Worker {
    var loadedBase: U64
    var usedFilter: string
    var funcMap: Entries
    var cur: nat
    var reply: Reply
    const buf: array<char>
    const hdr: nat

    ghost predicate Valid()
      reads this, buf
    {
      buf.Length == BufferSize && hdr <= Limit && cur <= |funcMap|
    }

    ghost function State(): WorkerState
      reads this, buf
    {
      WorkerState(loadedBase, usedFilter, funcMap, cur, reply, buf[..])
    }

    /** The worker before its first request: nothing loaded, a zeroed buffer. */
    constructor (hdr: nat)
      requires hdr <= Limit
      ensures Valid() && fresh(buf)
      ensures State() == WorkerState(0, [], [], 0, Reply(0, 0, 0, false, 0), seq(BufferSize, _ => '\0'))
    {
      loadedBase, usedFilter, funcMap, cur := 0, [], [], 0;
      reply := Reply(0, 0, 0, false, 0);
      buf := new char[BufferSize](_ => '\0');
      this.hdr := hdr;
    }

    /** memcpy of s and its NUL to position at. */
    method CopyString(at: nat, s: string)
      requires Valid() && at + |s| + 1 <= buf.Length
      modifies buf
      ensures buf[..] == old(buf[..])[..at] + s + ['\0'] + old(buf[..])[at + |s| + 1..]
    {
      ghost var b := buf[..];
      for j := 0 to |s|
        invariant buf[..] == b[..at] + s[..j] + b[at + j..]
      {
        buf[at + j] := s[j];
        assert s[..j + 1] == s[..j] + [s[j]];
      }
      buf[at + |s|] := '\0';
    }

    /** addToNames over a list, from the writer position `names`. */
    method AddAllNames(strs: seq<string>, names0: nat, overflow0: bool) returns (names: nat, overflow: bool)
      requires Valid() && names0 <= BufferSize
      modifies buf
      ensures AddAll(Writer(old(buf[..]), names0, overflow0), strs) == Writer(buf[..], names, overflow)
    {
      names, overflow := names0, overflow0;
      var k := 0;
      while k < |strs|
        invariant 0 <= k <= |strs| && names <= BufferSize
        invariant AddAll(Writer(buf[..], names, overflow), strs[k..]) == AddAll(Writer(old(buf[..]), names0, overflow0), strs)
      {
        assert strs[k..][1..] == strs[k + 1..];
        var len := |strs[k]| + 1;
        if names + len < Limit {
          CopyString(names, strs[k]);
          names := names + len;
        } else {
          overflow := true;
        }
        k := k + 1;
      }
    }

    /** terminateMultiString. */
    method TerminateNames(names0: nat, overflow0: bool) returns (names: nat, overflow: bool)
      requires Valid() && names0 <= BufferSize
      modifies buf
      ensures Terminate(Writer(old(buf[..]), names0, overflow0)) == Writer(buf[..], names, overflow)
    {
      names, overflow := names0, overflow0;
      if names <= Limit {
        buf[names] := '\0';
        names := names + 1;
      } else {
        overflow := true;
      }
    }

    /** The names area for one function: names, empty string, parameter types, empty string. */
    method WriteNames(f: FunctionRecord) returns (overflow: bool)
      requires Valid()
      modifies buf
      ensures Writer(buf[..], WriteEntry(old(buf[..]), hdr, f).names, overflow) == WriteEntry(old(buf[..]), hdr, f)
    {
      var names := hdr;
      names, overflow := AddAllNames(AllNames(f), names, false);
      names, overflow := TerminateNames(names, overflow);
      names, overflow := AddAllNames(f.paramTypes, names, overflow);
      names, overflow := TerminateNames(names, overflow);
    }

    /**
     * One request: `loaded` is the map dt_symsrv_load_functions builds for
     * it, `isGlob` stands for strisglob.
     */
    method Step(req: Request, loaded: Entries, isGlob: string -> bool)
      requires Valid()
      modifies this, buf
      ensures Valid()
      ensures State() == StepSpec(old(State()), req, loaded, isGlob, hdr)
    {
      var index := req.index;
      if index == NoResult {
        return;
      }
      reply := reply.(index := NoResult);
      var nameFilter := if req.nameFilter == [] || isGlob(req.nameFilter) then [] else req.nameFilter;
      var filterChanged := usedFilter != nameFilter;
      usedFilter := nameFilter;
      if loadedBase != req.moduleBase || filterChanged || funcMap == [] {
        funcMap := loaded;
        loadedBase := req.moduleBase;
        index := 0;
      }
      if index == 0 {
        cur := 0;
      }
      ScanFrom(index);
    }

    /** The for loop over the map, from the cursor on. */
    method ScanFrom(index: U32)
      requires Valid()
      modifies this`cur, this`reply, buf
      ensures Valid()
      ensures (cur, reply, buf[..]) == Scan(funcMap, usedFilter, hdr, index, old(cur), old(reply), old(buf[..]))
    {
      while cur < |funcMap|
        invariant Valid() && old(cur) <= cur <= |funcMap|
        invariant Scan(funcMap, usedFilter, hdr, index, cur, reply, buf[..])
               == Scan(funcMap, usedFilter, hdr, index, old(cur), old(reply), old(buf[..]))
        decreases |funcMap| - cur
      {
        var served := ServeEntry(index);
        cur := cur + 1;
        if served {
          break;
        }
      }
    }

    /**
     * One pass of the for loop, at the cursor: an entry the filter selects
     * writes its names area, and is served (the reply filled in) when that
     * does not overflow.
     */
    method ServeEntry(index: U32) returns (served: bool)
      requires Valid() && cur < |funcMap|
      modifies this`reply, buf
      ensures Valid()
      ensures served ==> (cur + 1, reply, buf[..]) == Scan(funcMap, usedFilter, hdr, index, cur, old(reply), old(buf[..]))
      ensures !served ==> Scan(funcMap, usedFilter, hdr, index, cur + 1, reply, buf[..])
                          == Scan(funcMap, usedFilter, hdr, index, cur, old(reply), old(buf[..]))
    {
      var f := funcMap[cur].1;
      if usedFilter != [] {
        var target := usedFilter;
        var matched := ForAllNames(f, n => n == target);
        if !matched {
          assert !Selected(usedFilter, f);
          return false;
        }
      }
      assert Selected(usedFilter, f);
      var overflow := WriteNames(f);
      if overflow {
        return false;
      }
      reply := Reply((index + 1) % 0x1_0000_0000, funcMap[cur].0, f.size, f.vaArgs, 0);
      return true;
    }
  }
}
