/**
 * The symbol server's function cache: the map from relative virtual address
 * to function record that enumerating a module's symbols fills
 * (dt_symsrv_function_t, dt_symsrv_is_function, dt_symsrv_add_function,
 * dt_symsrv_EnumSymProc and dt_symsrv_load_code_blocks).
 *
 * The std::map is a sequence of (rva, record) pairs sorted by rva, which is
 * also the order the worker's cursor walks it in.
 */
module SymCache {
  import opened Wrappers
  import opened SymFormat
  import opened SymTypes

  /**
   * dt_symsrv_function_t: the first name found for an address, its size,
   * its varargs flag, its type names (return type first) and the names of
   * other symbols folded to the same address, most recent first.
   */
  datatype FunctionRecord = FunctionRecord(name: string, size: U32, vaArgs: bool,
                                           paramTypes: seq<string>, altNames: seq<string>)

  /** The names ForAllNames visits, in its order: the name, then the alternate names. */
  function AllNames(f: FunctionRecord): seq<string>
  {
    [f.name] + f.altNames
  }

  /** Some name of f passes p. */
  predicate AnyNameMatches(f: FunctionRecord, p: string -> bool)
  {
    exists k :: 0 <= k < |AllNames(f)| && p(AllNames(f)[k])
  }

  /** A name equal to s is the name or one of the alternate names. */
  lemma AnyNameIs(f: FunctionRecord, p: string -> bool, s: string)
    requires forall n :: p(n) <==> n == s
    ensures AnyNameMatches(f, p) <==> f.name == s || s in f.altNames
  {
    if s in f.altNames {
      var j :| 0 <= j < |f.altNames| && f.altNames[j] == s;
      assert AllNames(f)[j + 1] == s;
    }
    if f.name == s {
      assert AllNames(f)[0] == s;
    }
  }

  /** ForAllNames: calls p on each name in order and stops at the first that passes. */
  method ForAllNames(f: FunctionRecord, p: string -> bool) returns (found: bool)
    ensures found <==> AnyNameMatches(f, p)
  {
    if p(f.name) {
      assert p(AllNames(f)[0]);
      return true;
    }
    var k := 0;
    while k < |f.altNames|
      invariant 0 <= k <= |f.altNames|
      invariant forall j :: 0 <= j <= k ==> !p(AllNames(f)[j])
    {
      if p(f.altNames[k]) {
        assert p(AllNames(f)[k + 1]);
        return true;
      }
      k := k + 1;
    }
    found := false;
  }

  // Symbol flags (SYMFLAG_* of dbghelp.h)
  const SymFlagExport: bv32 := 0x0000_0200
  const SymFlagFunction: bv32 := 0x0000_0800
  const SymFlagPublicCode: bv32 := 0x0040_0000

  /** dt_symsrv_is_function: a function symbol, or a public symbol flagged as code. */
  function IsFunction(tag: nat, flags: bv32): (r: bool)
    ensures r ==> tag == SymTagFunction || tag == SymTagPublicSymbol
    ensures tag == SymTagPublicSymbol && flags & SymFlagExport != 0 ==> r
  {
    tag == SymTagFunction
    || (tag == SymTagPublicSymbol && flags & (SymFlagExport | SymFlagFunction | SymFlagPublicCode) != 0)
  }

  /** Which symbols count as functions: exactly those two kinds, whatever the other flag bits. */
  lemma IsFunctionCases(tag: nat, flags: bv32)
    ensures tag == SymTagFunction ==> IsFunction(tag, flags)
    ensures tag != SymTagFunction && tag != SymTagPublicSymbol ==> !IsFunction(tag, flags)
    ensures tag == SymTagPublicSymbol ==>
      (IsFunction(tag, flags) <==>
        flags & SymFlagExport != 0 || flags & SymFlagFunction != 0 || flags & SymFlagPublicCode != 0)
  {
  }

  type Entries = seq<(U32, FunctionRecord)>

  /** The map's order: strictly increasing addresses. */
  predicate Sorted(es: Entries)
  {
    forall i, j :: 0 <= i < j < |es| ==> es[i].0 < es[j].0
  }

  /** lower_bound: the first position whose address is at least rva. */
  function LowerBound(es: Entries, rva: U32): (k: nat)
    ensures k <= |es|
    ensures forall i :: 0 <= i < k ==> es[i].0 < rva
    ensures k < |es| ==> es[k].0 >= rva
  {
    if es == [] || es[0].0 >= rva then 0 else 1 + LowerBound(es[1..], rva)
  }

  /** The record the map holds for rva. */
  function Find(es: Entries, rva: U32): (r: Option<FunctionRecord>)
    ensures r.None? ==> forall i :: 0 <= i < |es| ==> es[i].0 != rva
  {
    if es == [] then None else if es[0].0 == rva then Some(es[0].1) else Find(es[1..], rva)
  }

  /** The record a new address gets: its name and size and the types of its type index. */
  function NewRecord(modName: string, size: U32, name: string, fnType: Option<TypeNode>): FunctionRecord
  {
    var pt := ParamTypesOf(modName, fnType);
    FunctionRecord(name, size, pt.vaArgs, pt.types, [])
  }

  /** The map after dt_symsrv_add_function. */
  function Added(es: Entries, modName: string, rva: U32, size: U32, name: string,
                 fnType: Option<TypeNode>, allowMultiple: bool): (r: Entries)
    ensures |es| <= |r| <= |es| + 1
  {
    var k := LowerBound(es, rva);
    if k == |es| || es[k].0 != rva then es[..k] + [(rva, NewRecord(modName, size, name, fnType))] + es[k..]
    else if allowMultiple then es[k := (rva, es[k].1.(altNames := [name] + es[k].1.altNames))]
    else es
  }

  /** In a sorted map, the record at position i is the one Find gives for its address. */
  lemma {:induction false} FindAt(es: Entries, i: nat)
    requires Sorted(es) && i < |es|
    ensures Find(es, es[i].0) == Some(es[i].1)
  {
    if i > 0 {
      FindAt(es[1..], i - 1);
    }
  }

  /** An address no key equals is not in the map. */
  lemma {:induction false} FindMissing(es: Entries, rva: U32)
    requires forall i :: 0 <= i < |es| ==> es[i].0 != rva
    ensures Find(es, rva).None?
  {
    if es != [] {
      FindMissing(es[1..], rva);
    }
  }

  /** Find on a concatenation looks in the front first. */
  lemma {:induction false} FindConcat(a: Entries, b: Entries, rva: U32)
    ensures Find(a + b, rva) == if Find(a, rva).Some? then Find(a, rva) else Find(b, rva)
  {
    if a != [] {
      assert (a + b)[1..] == a[1..] + b;
      FindConcat(a[1..], b, rva);
    } else {
      assert a + b == b;
    }
  }

  /** The map stays sorted. */
  lemma AddedSorted(es: Entries, modName: string, rva: U32, size: U32, name: string,
                    fnType: Option<TypeNode>, allowMultiple: bool)
    requires Sorted(es)
    ensures Sorted(Added(es, modName, rva, size, name, fnType, allowMultiple))
  {
  }

  /**
   * dt_symsrv_add_function: a new address gets one new record, an address
   * already present gets the name prepended to its alternate names when
   * multiple names are allowed and is left alone otherwise; every other
   * address keeps its record.
   */
  lemma AddedFind(es: Entries, modName: string, rva: U32, size: U32, name: string,
                  fnType: Option<TypeNode>, allowMultiple: bool, r: U32)
    requires Sorted(es)
    ensures var es' := Added(es, modName, rva, size, name, fnType, allowMultiple);
      Find(es', r) ==
        if r != rva then Find(es, r)
        else if Find(es, rva).None? then Some(NewRecord(modName, size, name, fnType))
        else if allowMultiple then Some(Find(es, rva).value.(altNames := [name] + Find(es, rva).value.altNames))
        else Find(es, rva)
    ensures |Added(es, modName, rva, size, name, fnType, allowMultiple)| == |es| + (if Find(es, rva).None? then 1 else 0)
  {
    var k := LowerBound(es, rva);
    FindSplit(es, k, rva);
    FindSplit(es, k, r);
    FindMissing(es[..k], rva);
    if k == |es| || es[k].0 != rva {
      FindMissing(es[k..], rva);
      InsertFind(es, k, (rva, NewRecord(modName, size, name, fnType)), r);
    } else {
      FindAt(es, k);
      assert Find(es[k..], rva) == Some(es[k].1);
      if allowMultiple {
        ReplaceFind(es, k, (rva, es[k].1.(altNames := [name] + es[k].1.altNames)), r);
        ReplaceFind(es, k, es[k], r);
        assert es[k := es[k]] == es;
      }
    }
  }

  /** Find over a sequence split at k. */
  lemma FindSplit(es: Entries, k: nat, r: U32)
    requires k <= |es|
    ensures Find(es, r) == if Find(es[..k], r).Some? then Find(es[..k], r) else Find(es[k..], r)
  {
    assert es == es[..k] + es[k..];
    FindConcat(es[..k], es[k..], r);
  }

  /** Find after inserting e at position k. */
  lemma InsertFind(es: Entries, k: nat, e: (U32, FunctionRecord), r: U32)
    requires k <= |es|
    ensures Find(es[..k] + [e] + es[k..], r) ==
      if Find(es[..k], r).Some? then Find(es[..k], r) else if e.0 == r then Some(e.1) else Find(es[k..], r)
  {
    assert es[..k] + [e] + es[k..] == es[..k] + ([e] + es[k..]);
    FindConcat(es[..k], [e] + es[k..], r);
    FindConcat([e], es[k..], r);
  }

  /** Find after replacing entry k by e. */
  lemma ReplaceFind(es: Entries, k: nat, e: (U32, FunctionRecord), r: U32)
    requires k < |es|
    ensures Find(es[k := e], r) ==
      if Find(es[..k], r).Some? then Find(es[..k], r) else if e.0 == r then Some(e.1) else Find(es[k + 1..], r)
  {
    assert es[k := e] == es[..k] + ([e] + es[k + 1..]);
    FindConcat(es[..k], [e] + es[k + 1..], r);
    FindConcat([e], es[k + 1..], r);
  }

  /** The name a code block is known by: "+0x" and its address in eight hex digits. */
  function CodeBlockName(begin: U32): (r: string)
    ensures |r| == 11 && r[..3] == "+0x" && Value(r[3..], 16) == begin
  {
    var r := "+0x" + Hex8(begin);
    assert r[3..] == Hex8(begin);
    r
  }

  /** The map after adding every code block in order, none allowing a second name. */
  function WithCodeBlocks(es: Entries, modName: string, begins: seq<U32>): (r: Entries)
    ensures |es| <= |r| <= |es| + |begins|
    decreases |begins|
  {
    if begins == [] then es
    else WithCodeBlocks(Added(es, modName, begins[0], 0, CodeBlockName(begins[0]), None, false), modName, begins[1..])
  }

  /**
   * Code blocks only fill gaps: an address the symbols already named keeps
   * its record, and every block's address is in the map afterwards.
   */
  lemma {:induction false} CodeBlocksFillGaps(es: Entries, modName: string, begins: seq<U32>, r: U32)
    requires Sorted(es)
    ensures Sorted(WithCodeBlocks(es, modName, begins))
    ensures Find(es, r).Some? ==> Find(WithCodeBlocks(es, modName, begins), r) == Find(es, r)
    ensures r in begins ==> Find(WithCodeBlocks(es, modName, begins), r).Some?
    decreases |begins|
  {
    if begins != [] {
      var b := begins[0];
      var es1 := Added(es, modName, b, 0, CodeBlockName(b), None, false);
      AddedSorted(es, modName, b, 0, CodeBlockName(b), None, false);
      AddedFind(es, modName, b, 0, CodeBlockName(b), None, false, r);
      CodeBlocksFillGaps(es1, modName, begins[1..], r);
      if r == b {
        assert Find(es1, r).Some?;
      } else if r in begins {
        assert r in begins[1..];
      }
    }
  }

  /** What dt_symsrv_EnumSymProc reads from a SYMBOL_INFO. */
  datatype SymbolInfo = SymbolInfo(tag: nat, flags: bv32, address: U64, modBase: U64,
                                   size: U32, name: string, typeIndex: Option<TypeNode>)

  /** (ULONG)(Address - ModBase): the 64-bit difference truncated to 32 bits. */
  function SymbolRva(sym: SymbolInfo): (r: U32)
    ensures (sym.modBase + r) % 0x1_0000_0000 == sym.address % 0x1_0000_0000
  {
    (sym.address - sym.modBase) % 0x1_0000_0000
  }

  /** dt_symsrv_function_enum_ctx_t: the map under construction and the module name. */
  class FunctionEnumCtx {
    var entries: Entries
    const modName: string

    ghost predicate Valid()
      reads this
    {
      Sorted(entries)
    }

    constructor (modName: string)
      ensures Valid() && entries == [] && this.modName == modName
    {
      entries := [];
      this.modName := modName;
    }

    /** dt_symsrv_add_function. */
    method AddFunction(rva: U32, size: U32, name: string, fnType: Option<TypeNode>, allowMultiple: bool)
      requires Valid()
      modifies this
      ensures Valid()
      ensures entries == Added(old(entries), modName, rva, size, name, fnType, allowMultiple)
    {
      AddedSorted(entries, modName, rva, size, name, fnType, allowMultiple);
      var f := LowerBound(entries, rva);
      if f == |entries| || entries[f].0 != rva {
        var paramTypes := LoadParamTypes(modName, fnType);
        entries := entries[..f] + [(rva, FunctionRecord(name, size, paramTypes.vaArgs, paramTypes.types, []))] + entries[f..];
      } else if allowMultiple {
        entries := entries[f := (rva, entries[f].1.(altNames := [name] + entries[f].1.altNames))];
      }
    }

    /** dt_symsrv_EnumSymProc: adds a function symbol, allowing folded names; always continues. */
    method EnumSymProc(sym: SymbolInfo) returns (more: bool)
      requires Valid()
      modifies this
      ensures Valid() && more
      ensures entries == if IsFunction(sym.tag, sym.flags)
        then Added(old(entries), modName, SymbolRva(sym), sym.size, sym.name, sym.typeIndex, true)
        else old(entries)
    {
      if IsFunction(sym.tag, sym.flags) {
        AddFunction(SymbolRva(sym), sym.size, sym.name, sym.typeIndex, true);
      }
      more := true;
    }

    /**
     * dt_symsrv_load_code_blocks, from the begin addresses of the image's
     * exception table: each becomes a synthetic, untyped function.
     */
    method LoadCodeBlocks(begins: seq<U32>)
      requires Valid()
      modifies this
      ensures Valid()
      ensures entries == WithCodeBlocks(old(entries), modName, begins)
    {
      var i := 0;
      while i < |begins|
        invariant 0 <= i <= |begins|
        invariant Valid()
        invariant WithCodeBlocks(entries, modName, begins[i..]) == WithCodeBlocks(old(entries), modName, begins)
      {
        assert begins[i..][1..] == begins[i + 1..];
        var name := CodeBlockName(begins[i]);
        AddFunction(begins[i], 0, name, None, false);
        i := i + 1;
      }
    }
  }
}
