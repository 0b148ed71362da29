/**
 * Type-name reconstruction of the symbol server (dt_symsrv_type_ctx_t and
 * dt_symsrv_load_paramtypes): a debug-info type is rendered as a C-like
 * name qualified by the module it comes from, and a function type as the
 * list of its return, 'this' and parameter type names.
 *
 * The debug-information queries (SymGetTypeInfo) are answered by a tree of
 * TypeNode values: each field is the answer to one query, None when the
 * query fails.
 */
module SymTypes {
  import opened Wrappers
  import opened SymFormat

  // Symbol tags (SymTagEnum of the DIA SDK's cvconst.h)
  const SymTagFunction: nat := 5
  const SymTagPublicSymbol: nat := 10
  const SymTagUdt: nat := 11
  const SymTagEnum: nat := 12
  const SymTagFunctionType: nat := 13
  const SymTagPointerType: nat := 14
  const SymTagArrayType: nat := 15
  const SymTagBaseType: nat := 16

  // Basic types (BasicType of cvconst.h)
  const BtNoType: nat := 0
  const BtVoid: nat := 1
  const BtChar: nat := 2
  const BtWChar: nat := 3
  const BtInt: nat := 6
  const BtUInt: nat := 7
  const BtFloat: nat := 8
  const BtBool: nat := 10
  const BtLong: nat := 13
  const BtULong: nat := 14
  const BtHresult: nat := 31

  /**
   * What the debug information says about one type id.  `typeId` is the
   * referenced type (pointee, element or return type), `name` the symbol
   * name already narrowed to 8-bit characters, `objectPointer` the type of
   * 'this' when the id is a member function type and that type id is not 0,
   * and `children` the type of each parameter: None when the parameter count
   * or the child list cannot be read, and None for one child whose type
   * cannot be read.
   */
  datatype TypeNode = TypeNode(
    tag: Option<nat>,
    baseType: Option<nat>,
    length: Option<U64>,
    typeId: Option<TypeNode>,
    name: Option<string>,
    objectPointer: Option<TypeNode>,
    children: Option<seq<Option<TypeNode>>>)

  const UnknownUdt: string := "__$unknownUDT"
  const UnknownBaseType: string := "__$unknownBaseType"
  const UnknownType: string := "__$unknownType"
  const VoidPointer: string := "void*"

  /** The summed length of a list of strings. */
  function TotalLength(parts: seq<string>): nat
  {
    if parts == [] then 0 else TotalLength(parts[..|parts| - 1]) + |parts[|parts| - 1]|
  }

  /** str_concat over a list of views: the parts one after another. */
  function StrConcat(parts: seq<string>): (r: string)
    ensures |r| == TotalLength(parts)
  {
    if parts == [] then [] else StrConcat(parts[..|parts| - 1]) + parts[|parts| - 1]
  }

  /** Part i of a str_concat sits at the summed length of the parts before it. */
  lemma {:induction false} StrConcatPart(parts: seq<string>, i: nat)
    requires i < |parts|
    ensures TotalLength(parts[..i]) + |parts[i]| <= |StrConcat(parts)|
    ensures StrConcat(parts)[TotalLength(parts[..i])..TotalLength(parts[..i]) + |parts[i]|] == parts[i]
  {
    var init := parts[..|parts| - 1];
    assert StrConcat(parts) == StrConcat(init) + parts[|parts| - 1];
    if i == |parts| - 1 {
      assert parts[..i] == init;
    } else {
      StrConcatPart(init, i);
      assert parts[..i] == init[..i];
    }
  }

  /** Every part sits where the parts before it end. */
  lemma StrConcatParts(parts: seq<string>)
    ensures forall i :: 0 <= i < |parts| ==>
      TotalLength(parts[..i]) + |parts[i]| <= |StrConcat(parts)| &&
      StrConcat(parts)[TotalLength(parts[..i])..TotalLength(parts[..i]) + |parts[i]|] == parts[i]
  {
    forall i | 0 <= i < |parts|
      ensures TotalLength(parts[..i]) + |parts[i]| <= |StrConcat(parts)|
      ensures StrConcat(parts)[TotalLength(parts[..i])..TotalLength(parts[..i]) + |parts[i]|] == parts[i]
    {
      StrConcatPart(parts, i);
    }
  }

  /** A prefix's total length is at most the whole list's. */
  lemma {:induction false} TotalLengthPrefix(parts: seq<string>, k: nat)
    requires k <= |parts|
    ensures TotalLength(parts[..k]) <= TotalLength(parts)
    decreases |parts|
  {
    if k < |parts| {
      assert parts[..|parts| - 1][..k] == parts[..k];
      TotalLengthPrefix(parts[..|parts| - 1], k);
    } else {
      assert parts[..k] == parts;
    }
  }

  /** The two-view str_concat is the one-list str_concat of the pair. */
  lemma StrConcatPair(a: string, b: string)
    ensures StrConcat([a, b]) == a + b
  {
    assert [a, b][..1] == [a];
    assert [a][..0] == [];
  }

  /** The int/void switch of basetype. */
  function IntSpelling(length: U64): string
  {
    if length == 0 then "void"
    else if length == 1 then "char"
    else if length == 2 then "short"
    else if length == 4 then "long"
    else if length == 8 then "long long"
    else ""
  }

  /** The prefix and type spelling basetype picks for a basic type and length. */
  function BaseSpelling(bt: nat, length: U64): (string, string)
  {
    if bt == BtWChar || bt == BtChar then
      ("", if length == 1 then "char" else if length == 2 then "wchar_t" else "")
    else if bt == BtUInt || bt == BtULong then ("unsigned ", IntSpelling(length))
    else if bt == BtVoid || bt == BtInt || bt == BtLong then ("", IntSpelling(length))
    else if bt == BtFloat then ("", if length == 4 then "float" else if length == 8 then "double" else "")
    else if bt == BtBool then ("", if length == 1 then "bool" else if length == 4 then "`BOOL" else "")
    else if bt == BtHresult then ("", "`HRESULT")
    else ("", "")
  }

  /** basetype: the name of a basic type, module-qualified when it is a backtick name. */
  function BaseTypeName(modName: string, t: TypeNode): (r: string)
    ensures r != []
    ensures t.baseType.None? || t.length.None? ==> r == UnknownBaseType
  {
    if t.baseType.None? || t.length.None? then UnknownBaseType
    else
      var (prefix, ty) := BaseSpelling(t.baseType.value, t.length.value);
      if ty == [] then UnknownBaseType
      else if prefix != [] then StrConcat([prefix, ty])
      else if ty[0] == '`' then StrConcat([modName, ty])
      else ty
  }

  /** The (basic type, length) pairs basetype knows, listed independently of its switch. */
  predicate KnownBase(bt: nat, length: U64)
  {
    || ((bt == BtChar || bt == BtWChar) && (length == 1 || length == 2))
    || ((bt == BtVoid || bt == BtInt || bt == BtLong || bt == BtUInt || bt == BtULong)
        && length in {0, 1, 2, 4, 8})
    || (bt == BtFloat && (length == 4 || length == 8))
    || (bt == BtBool && (length == 1 || length == 4))
    || bt == BtHresult
  }

  /** The base-type table: the names basetype gives each kind and length. */
  lemma BaseTypeTable(modName: string, t: TypeNode)
    requires t.baseType.Some? && t.length.Some?
    ensures var (bt, len, r) := (t.baseType.value, t.length.value, BaseTypeName(modName, t));
      && (r == UnknownBaseType <==> !KnownBase(bt, len))
      && ((bt == BtChar || bt == BtWChar) && len == 1 ==> r == "char")
      && ((bt == BtChar || bt == BtWChar) && len == 2 ==> r == "wchar_t")
      && ((bt == BtUInt || bt == BtULong) && KnownBase(bt, len) ==> r == "unsigned " + IntSpelling(len))
      && ((bt == BtVoid || bt == BtInt || bt == BtLong) && KnownBase(bt, len) ==> r == IntSpelling(len))
      && (bt == BtFloat && len == 4 ==> r == "float")
      && (bt == BtFloat && len == 8 ==> r == "double")
      && (bt == BtBool && len == 1 ==> r == "bool")
      && (bt == BtBool && len == 4 ==> r == modName + "`BOOL")
      && (bt == BtHresult ==> r == modName + "`HRESULT")
  {
    var bt, len := t.baseType.value, t.length.value;
    StrConcatPair("unsigned ", IntSpelling(len));
    StrConcatPair(modName, "`BOOL");
    StrConcatPair(modName, "`HRESULT");
    if KnownBase(bt, len) {
      var r := BaseTypeName(modName, t);
      assert BaseSpelling(bt, len).1 != [];
      if (bt == BtBool && len == 4) || bt == BtHresult {
        assert r[|modName|] == '`';
        assert '`' !in UnknownBaseType;
      } else if bt == BtUInt || bt == BtULong {
        assert r[0] == 'u';
      }
    }
  }

  /** A character udt wraps the name for: ':', '<' or ' '. */
  predicate Reserved(c: char)
  {
    c == ':' || c == '<' || c == ' '
  }

  /** udt: the module-qualified backtick name, wrapped when it holds a reserved character. */
  function UdtName(modName: string, name: Option<string>): (r: string)
    ensures r != []
    ensures name.Some? && name.value != [] ==> |r| >= |modName| + 1 + |name.value|
  {
    if name.None? || name.value == [] then UnknownUdt
    else
      var typeName := "`" + name.value;
      if exists i :: 0 <= i < |typeName| && Reserved(typeName[i]) then
        StrConcatQuad("__identifier(\"", modName, typeName, "\")");
        StrConcat(["__identifier(\"", modName, typeName, "\")"])
      else
        StrConcatPair(modName, typeName);
        StrConcat([modName, typeName])
  }

  /**
   * A UDT or enum renders as module + "`" + name, wrapped in
   * __identifier("...") when the name holds ':', '<' or ' ', and as the
   * sentinel exactly when it has no name.
   */
  lemma UdtNameShape(modName: string, name: Option<string>)
    ensures UdtName(modName, name) == UnknownUdt <==> name.None? || name.value == []
    ensures name.Some? && name.value != [] && (exists i :: 0 <= i < |name.value| && Reserved(name.value[i])) ==>
      UdtName(modName, name) == "__identifier(\"" + modName + "`" + name.value + "\")"
    ensures name.Some? && name.value != [] && (forall i :: 0 <= i < |name.value| ==> !Reserved(name.value[i])) ==>
      UdtName(modName, name) == modName + "`" + name.value
  {
    if name.Some? && name.value != [] {
      var typeName := "`" + name.value;
      BacktickReserved(name.value);
      var r := UdtName(modName, name);
      StrConcatPair(modName, typeName);
      StrConcatQuad("__identifier(\"", modName, typeName, "\")");
      assert "__identifier(\"" + modName + "`" + name.value + "\")" == "__identifier(\"" + modName + typeName + "\")";
      assert modName + "`" + name.value == modName + typeName;
      if exists i :: 0 <= i < |typeName| && Reserved(typeName[i]) {
        assert r[|r| - 1] == ')';
      } else {
        assert r[|modName|] == '`';
      }
    }
  }

  /** The backtick udt puts in front of a name is not itself reserved. */
  lemma BacktickReserved(name: string)
    ensures (exists i :: 0 <= i < |"`" + name| && Reserved(("`" + name)[i])) <==>
      (exists i :: 0 <= i < |name| && Reserved(name[i]))
  {
    var typeName := "`" + name;
    if exists i :: 0 <= i < |typeName| && Reserved(typeName[i]) {
      var i :| 0 <= i < |typeName| && Reserved(typeName[i]);
      assert Reserved(name[i - 1]);
    }
    if exists i :: 0 <= i < |name| && Reserved(name[i]) {
      var i :| 0 <= i < |name| && Reserved(name[i]);
      assert typeName[i + 1] == name[i];
    }
  }

  /** The four-view str_concat udt uses for a wrapped name. */
  lemma StrConcatQuad(a: string, b: string, c: string, d: string)
    ensures StrConcat([a, b, c, d]) == a + b + c + d
  {
    assert StrConcat([a]) == a by { assert [a][..0] == []; }
    assert StrConcat([a, b]) == a + b by { assert [a, b][..1] == [a]; }
    assert StrConcat([a, b, c]) == a + b + c by { assert [a, b, c][..2] == [a, b]; }
    assert [a, b, c, d][..3] == [a, b, c];
  }

  /** pointer: the pointee's name and "*", or "void*" when the pointee has no name. */
  function PointerName(modName: string, t: TypeNode): (r: string)
    ensures |r| >= 1 && r[|r| - 1] == '*'
    decreases t, 0
  {
    var base := if t.typeId.Some? then TypeStr(modName, t.typeId.value) else "";
    if base == [] then VoidPointer else base + "*"
  }

  /** array: the element's name and "[N]" ("[]" when the length is unknown), or "void*". */
  function ArrayName(modName: string, t: TypeNode): (r: string)
    ensures r != []
    decreases t, 0
  {
    var dims := if t.length.Some? then "[" + SignedDecimal(t.length.value) + "]" else "[]";
    var elem := if t.typeId.Some? then TypeStr(modName, t.typeId.value) else "";
    if elem == [] then VoidPointer else elem + dims
  }

  /**
   * typestr: the name of any type, dispatched on its symbol tag; empty
   * exactly when the tag cannot be read.
   */
  function TypeStr(modName: string, t: TypeNode): (r: string)
    ensures r == [] <==> t.tag.None?
    decreases t, 1
  {
    if t.tag.None? then ""
    else
      var tag := t.tag.value;
      if tag == SymTagBaseType then BaseTypeName(modName, t)
      else if tag == SymTagUdt || tag == SymTagEnum then UdtName(modName, t.name)
      else if tag == SymTagPointerType then PointerName(modName, t)
      else if tag == SymTagFunctionType then VoidPointer
      else if tag == SymTagArrayType then ArrayName(modName, t)
      else UnknownType
  }

  /**
   * The tag alone decides the sentinels: a function type is "void*" and a tag
   * outside the handled ones is "__$unknownType", whatever else is known.
   */
  lemma TypeStrSentinels(modName: string, t: TypeNode, u: TypeNode)
    requires t.tag.Some? && t.tag == u.tag
    ensures t.tag.value == SymTagFunctionType ==> TypeStr(modName, t) == VoidPointer
    ensures t.tag.value !in {SymTagBaseType, SymTagUdt, SymTagEnum, SymTagPointerType, SymTagFunctionType, SymTagArrayType} ==>
      TypeStr(modName, t) == UnknownType == TypeStr(modName, u)
    ensures t.tag.value in {SymTagPointerType, SymTagArrayType, SymTagFunctionType} ==> TypeStr(modName, t)[|TypeStr(modName, t)| - 1] in "*]"
  {
  }

  /** A pointer to t, as the debug information describes one. */
  function PointerTo(t: TypeNode): TypeNode
  {
    TypeNode(Some(SymTagPointerType), None, Some(8), Some(t), None, None, None)
  }

  /** t wrapped in k pointer levels. */
  function Pointers(t: TypeNode, k: nat): TypeNode
  {
    if k == 0 then t else PointerTo(Pointers(t, k - 1))
  }

  /** k stars. */
  function Stars(k: nat): (r: string)
    ensures |r| == k
  {
    if k == 0 then "" else Stars(k - 1) + "*"
  }

  /** Every pointer level adds one star to a named type; an unnamed one starts at "void*". */
  lemma {:induction false} PointerLevels(modName: string, t: TypeNode, k: nat)
    ensures t.tag.Some? ==> TypeStr(modName, Pointers(t, k)) == TypeStr(modName, t) + Stars(k)
    ensures t.tag.None? && k >= 1 ==> TypeStr(modName, Pointers(t, k)) == VoidPointer + Stars(k - 1)
  {
    if k > 0 {
      PointerLevels(modName, t, k - 1);
      if t.tag.None? && k == 1 {
        assert TypeStr(modName, Pointers(t, 1)) == PointerName(modName, PointerTo(t));
      }
    }
  }

  /** An array whose element has a name ends its name with the bracketed length. */
  lemma ArrayDims(modName: string, t: TypeNode)
    requires t.tag == Some(SymTagArrayType)
    ensures t.typeId.None? || t.typeId.value.tag.None? ==> TypeStr(modName, t) == VoidPointer
    ensures t.typeId.Some? && t.typeId.value.tag.Some? && t.length.None? ==>
      TypeStr(modName, t) == TypeStr(modName, t.typeId.value) + "[]"
    ensures t.typeId.Some? && t.typeId.value.tag.Some? && t.length.Some? ==>
      TypeStr(modName, t) == TypeStr(modName, t.typeId.value) + "[" + SignedDecimal(t.length.value) + "]"
  {
    assert TypeStr(modName, t) == ArrayName(modName, t);
    if t.typeId.Some? && t.typeId.value.tag.Some? {
      assert TypeStr(modName, t.typeId.value) != [];
    }
  }

  // ---------------------------------------------------------------------
  // Parameter types

  /** dt_symsrv_param_types_t: the type names (return type first) and the varargs flag. */
  datatype ParamTypes = ParamTypes(types: seq<string>, vaArgs: bool)

  const NoParamTypes := ParamTypes([], false)

  /** The names 'this' contributes: one slot when the function has an object pointer type. */
  function ThisSlot(modName: string, f: TypeNode): seq<string>
  {
    if f.objectPointer.Some? then [TypeStr(modName, f.objectPointer.value)] else []
  }

  /**
   * The parameter loop from child i on, with the names collected so far:
   * None when a child's type cannot be read or named.  A last child of
   * basic type btNoType sets the varargs flag instead of adding a name.
   */
  function ChildTypes(modName: string, kids: seq<Option<TypeNode>>, i: nat, acc: seq<string>): (r: Option<(seq<string>, bool)>)
    requires i <= |kids|
    ensures r.Some? ==> |acc| <= |r.value.0| <= |acc| + |kids| - i && r.value.0[..|acc|] == acc
    ensures r.Some? && r.value.1 ==> i < |kids| && kids[|kids| - 1].Some? && kids[|kids| - 1].value.baseType == Some(BtNoType)
    decreases |kids| - i
  {
    if i == |kids| then Some((acc, false))
    else if kids[i].None? then None
    else if i + 1 == |kids| && kids[i].value.baseType == Some(BtNoType) then Some((acc, true))
    else
      var s := TypeStr(modName, kids[i].value);
      if s == [] then None else ChildTypes(modName, kids, i + 1, acc + [s])
  }

  /**
   * dt_symsrv_load_paramtypes: the types of a function type (None stands
   * for type index 0), or the empty result when any of them cannot be read.
   */
  function ParamTypesOf(modName: string, fnType: Option<TypeNode>): (r: ParamTypes)
    ensures r.types == [] ==> r == NoParamTypes
    ensures r.types != [] ==>
      && fnType.Some? && fnType.value.tag == Some(SymTagFunctionType) && fnType.value.typeId.Some?
      && r.types[0] == TypeStr(modName, fnType.value.typeId.value) && r.types[0] != []
  {
    if fnType.None? then NoParamTypes
    else
      var f := fnType.value;
      if f.tag != Some(SymTagFunctionType) || f.typeId.None? then NoParamTypes
      else
        var ret := TypeStr(modName, f.typeId.value);
        if ret == [] then NoParamTypes
        else if f.objectPointer.Some? && TypeStr(modName, f.objectPointer.value) == [] then NoParamTypes
        else if f.children.None? then NoParamTypes
        else
          match ChildTypes(modName, f.children.value, 0, [ret] + ThisSlot(modName, f))
          case None => NoParamTypes
          case Some((ts, va)) => ParamTypes(ts, va)
  }

  /** Child k is a varargs marker: the last child, of basic type btNoType. */
  predicate VarArgsMarker(kids: seq<Option<TypeNode>>, k: nat)
    requires k < |kids|
  {
    k + 1 == |kids| && kids[k].Some? && kids[k].value.baseType == Some(BtNoType)
  }

  /** Every query dt_symsrv_load_paramtypes makes succeeds and names a type. */
  predicate Resolvable(modName: string, fnType: Option<TypeNode>)
  {
    && fnType.Some?
    && fnType.value.tag == Some(SymTagFunctionType)
    && fnType.value.typeId.Some? && fnType.value.typeId.value.tag.Some?
    && (fnType.value.objectPointer.Some? ==> fnType.value.objectPointer.value.tag.Some?)
    && fnType.value.children.Some?
    && var kids := fnType.value.children.value;
       forall k :: 0 <= k < |kids| ==>
         kids[k].Some? && (VarArgsMarker(kids, k) || kids[k].value.tag.Some?)
  }

  /** The number of named parameters: every child but a varargs marker. */
  function Named(kids: seq<Option<TypeNode>>): nat
  {
    if |kids| > 0 && VarArgsMarker(kids, |kids| - 1) then |kids| - 1 else |kids|
  }

  /** The parameter loop either fails or appends one name per named child, in order. */
  lemma {:induction false} ChildTypesSlots(modName: string, kids: seq<Option<TypeNode>>, i: nat, acc: seq<string>)
    requires i <= |kids|
    ensures var r := ChildTypes(modName, kids, i, acc);
      r.Some? <==> forall k :: i <= k < |kids| ==> kids[k].Some? && (VarArgsMarker(kids, k) || kids[k].value.tag.Some?)
    ensures var r := ChildTypes(modName, kids, i, acc);
      r.Some? ==>
        && r.value.1 == (|kids| > i && VarArgsMarker(kids, |kids| - 1))
        && |r.value.0| == |acc| + (if Named(kids) > i then Named(kids) - i else 0)
        && r.value.0[..|acc|] == acc
        && forall k :: i <= k < Named(kids) ==> r.value.0[|acc| + k - i] == TypeStr(modName, kids[k].value)
    decreases |kids| - i
  {
    if i < |kids| && kids[i].Some? && !(i + 1 == |kids| && kids[i].value.baseType == Some(BtNoType)) {
      var s := TypeStr(modName, kids[i].value);
      if s != [] {
        ChildTypesSlots(modName, kids, i + 1, acc + [s]);
        var r := ChildTypes(modName, kids, i + 1, acc + [s]);
        if r.Some? {
          assert r.value.0[..|acc|] == r.value.0[..|acc| + 1][..|acc|];
          assert r.value.0[|acc|] == r.value.0[..|acc| + 1][|acc|];
        }
      }
    }
  }

  /**
   * The parameter list is all or nothing: it is non-empty exactly when every
   * query succeeds, and it then holds the return type, 'this' when there is
   * one, and each parameter in order, with the varargs flag set exactly when
   * the last parameter is a btNoType marker.
   */
  lemma ParamTypesShape(modName: string, fnType: Option<TypeNode>)
    ensures var r := ParamTypesOf(modName, fnType);
      r.types != [] <==> Resolvable(modName, fnType)
    ensures var r := ParamTypesOf(modName, fnType);
      r.types == [] ==> !r.vaArgs
    ensures var r := ParamTypesOf(modName, fnType);
      Resolvable(modName, fnType) ==>
        var f := fnType.value;
        var kids := f.children.value;
        var th := |ThisSlot(modName, f)|;
        && |r.types| == 1 + th + Named(kids)
        && r.types[0] == TypeStr(modName, f.typeId.value)
        && (f.objectPointer.Some? ==> r.types[1] == TypeStr(modName, f.objectPointer.value))
        && (forall k :: 0 <= k < Named(kids) ==> r.types[1 + th + k] == TypeStr(modName, kids[k].value))
        && (r.vaArgs <==> |kids| > 0 && VarArgsMarker(kids, |kids| - 1))
  {
    if fnType.Some? && fnType.value.tag == Some(SymTagFunctionType) && fnType.value.typeId.Some? {
      var f := fnType.value;
      var ret := TypeStr(modName, f.typeId.value);
      if ret != [] && !(f.objectPointer.Some? && TypeStr(modName, f.objectPointer.value) == []) && f.children.Some? {
        var acc := [ret] + ThisSlot(modName, f);
        ChildTypesSlots(modName, f.children.value, 0, acc);
        var r := ChildTypes(modName, f.children.value, 0, acc);
        if r.Some? {
          assert ParamTypesOf(modName, fnType) == ParamTypes(r.value.0, r.value.1);
          assert r.value.0[0] == r.value.0[..|acc|][0];
          if f.objectPointer.Some? {
            assert r.value.0[1] == r.value.0[..|acc|][1];
          }
        }
      }
    }
  }

  /**
   * dt_symsrv_load_paramtypes: the return type, then 'this', then a loop
   * over the parameters that stops early at a varargs marker.
   */
  method LoadParamTypes(modName: string, fnType: Option<TypeNode>) returns (r: ParamTypes)
    ensures r == ParamTypesOf(modName, fnType)
  {
    if fnType.None? {
      return NoParamTypes;
    }
    var f := fnType.value;
    if f.tag != Some(SymTagFunctionType) || f.typeId.None? {
      return NoParamTypes;
    }
    var retType := TypeStr(modName, f.typeId.value);
    if retType == [] {
      return NoParamTypes;
    }
    var thisTypeName := "";
    if f.objectPointer.Some? {
      thisTypeName := TypeStr(modName, f.objectPointer.value);
      if thisTypeName == [] {
        return NoParamTypes;
      }
    }
    if f.children.None? {
      return NoParamTypes;
    }
    var kids := f.children.value;
    var paramTypes := [retType];
    if thisTypeName != [] {
      paramTypes := paramTypes + [thisTypeName];
    }
    assert paramTypes == [retType] + ThisSlot(modName, f);
    var vaArgs := false;
    var i := 0;
    while i < |kids|
      invariant 0 <= i <= |kids|
      invariant ChildTypes(modName, kids, i, paramTypes) == ChildTypes(modName, kids, 0, [retType] + ThisSlot(modName, f))
    {
      if kids[i].None? {
        return NoParamTypes;
      }
      if i + 1 == |kids| && kids[i].value.baseType == Some(BtNoType) {
        vaArgs := true;
        break;
      }
      var paramType := TypeStr(modName, kids[i].value);
      if paramType == [] {
        return NoParamTypes;
      }
      paramTypes := paramTypes + [paramType];
      i := i + 1;
    }
    r := ParamTypes(paramTypes, vaArgs);
  }
}
