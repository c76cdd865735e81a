/**
 BTF type descriptors, their structural comparisons and signature hashes.

 A descriptor is a graph node.  Its signature holds everything but type ids:
 the name offset, the `info` word, the `size` field of the kinds that have one,
 and the trailing records, split into the string offsets (`names`) and the other
 numbers (`vals`).  Its references are the type ids, in descriptor order:
 `type` first where the kind has one, then those of the trailing records.
 */
module BtfTypes {
  import opened Powers
  import opened TypeGraph

  datatype Signature<N> = Signature(name: N, info: nat, size: nat, names: seq<N>, vals: seq<int>)

  type BtfType = Node<Signature<nat>>
  type BtfGraph = Graph<Signature<nat>>

  const KIND_UNKN: nat := 0
  const KIND_INT: nat := 1
  const KIND_PTR: nat := 2
  const KIND_ARRAY: nat := 3
  const KIND_STRUCT: nat := 4
  const KIND_UNION: nat := 5
  const KIND_ENUM: nat := 6
  const KIND_FWD: nat := 7
  const KIND_TYPEDEF: nat := 8
  const KIND_VOLATILE: nat := 9
  const KIND_CONST: nat := 10
  const KIND_RESTRICT: nat := 11
  const KIND_FUNC: nat := 12
  const KIND_FUNC_PROTO: nat := 13
  const KIND_VAR: nat := 14
  const KIND_DATASEC: nat := 15

  function InfoKind(info: nat): nat { info / 0x100_0000 % 16 }
  function InfoVlen(info: nat): nat { info % 0x1_0000 }
  predicate InfoKflag(info: nat) { info / 0x8000_0000 % 2 == 1 }

  function Kind(t: BtfType): nat { InfoKind(t.sig.info) }
  function Vlen(t: BtfType): nat { InfoVlen(t.sig.info) }

  predicate IsComposite(t: BtfType) { Kind(t) == KIND_STRUCT || Kind(t) == KIND_UNION }
  predicate IsFwd(t: BtfType) { Kind(t) == KIND_FWD }
  predicate IsEnum(t: BtfType) { Kind(t) == KIND_ENUM }
  predicate IsEnumFwd(t: BtfType) { IsEnum(t) && Vlen(t) == 0 }

  /** The kind of type a forward stands for. */
  function FwdKind(t: BtfType): nat {
    if InfoKflag(t.sig.info) then KIND_UNION else KIND_STRUCT
  }

  /** Kinds whose descriptor is the bare header with a `type` field. */
  predicate SingleRefKind(k: nat) {
    k == KIND_PTR || k == KIND_TYPEDEF || k == KIND_VOLATILE || k == KIND_CONST ||
    k == KIND_RESTRICT || k == KIND_FUNC
  }

  predicate IsRefKind(k: nat) {
    SingleRefKind(k) || k == KIND_ARRAY || k == KIND_FUNC_PROTO
  }

  /** Kinds whose third header word is a type id and not a size. */
  predicate HasTypeField(k: nat) {
    SingleRefKind(k) || k == KIND_FWD || k == KIND_FUNC_PROTO || k == KIND_VAR
  }

  /** How many names, values and references the layout of each kind holds. */
  predicate Layout(t: BtfType) {
    var k, v := Kind(t), Vlen(t);
    && (HasTypeField(k) ==> t.sig.size == 0)
    && |t.sig.names| == (if IsComposite(t) || k == KIND_ENUM || k == KIND_FUNC_PROTO then v else 0)
    && |t.sig.vals| == (if IsComposite(t) || k == KIND_ENUM then v
                        else if k == KIND_INT || k == KIND_ARRAY || k == KIND_VAR then 1
                        else if k == KIND_DATASEC then 2 * v else 0)
    && |t.refs| == (if SingleRefKind(k) || k == KIND_FWD || k == KIND_VAR then 1
                    else if k == KIND_ARRAY then 2
                    else if IsComposite(t) || k == KIND_DATASEC then v
                    else if k == KIND_FUNC_PROTO then v + 1 else 0)
  }

  predicate Layouts(g: BtfGraph) {
    forall i :: 0 <= i < |g| ==> Layout(g[i])
  }

  /** The third header word, a size or a type id depending on the kind. */
  function SizeOrType(t: BtfType): nat
    requires Layout(t)
  {
    if HasTypeField(Kind(t)) then t.refs[0] else t.sig.size
  }

  // ----- structural comparisons

  predicate EqualCommon(t1: BtfType, t2: BtfType)
    requires Layout(t1) && Layout(t2)
  {
    t1.sig.name == t2.sig.name && t1.sig.info == t2.sig.info && SizeOrType(t1) == SizeOrType(t2)
  }

  predicate EqualInt(t1: BtfType, t2: BtfType)
    requires Layout(t1) && Layout(t2) && Kind(t1) == KIND_INT
  {
    EqualCommon(t1, t2) && t1.sig.vals[0] == t2.sig.vals[0]
  }

  predicate EqualEnum(t1: BtfType, t2: BtfType)
    requires Layout(t1) && Layout(t2) && IsEnum(t1)
  {
    EqualCommon(t1, t2) &&
    forall i :: 0 <= i < Vlen(t1) ==> t1.sig.names[i] == t2.sig.names[i] && t1.sig.vals[i] == t2.sig.vals[i]
  }

  /** The `info` word without its `vlen` bits. */
  function InfoHigh(info: nat): nat { info / 0x1_0000 }

  predicate CompatEnum(t1: BtfType, t2: BtfType)
    requires Layout(t1) && Layout(t2) && IsEnum(t1)
  {
    if !IsEnumFwd(t1) && !IsEnumFwd(t2) then EqualEnum(t1, t2)
    else
      && t1.sig.name == t2.sig.name && SizeOrType(t1) == SizeOrType(t2)
      && InfoHigh(t1.sig.info) == InfoHigh(t2.sig.info)
  }

  predicate ShallowEqualStruct(t1: BtfType, t2: BtfType)
    requires Layout(t1) && Layout(t2) && IsComposite(t1)
  {
    EqualCommon(t1, t2) &&
    forall i :: 0 <= i < Vlen(t1) ==> t1.sig.names[i] == t2.sig.names[i] && t1.sig.vals[i] == t2.sig.vals[i]
  }

  predicate EqualArray(t1: BtfType, t2: BtfType)
    requires Layout(t1) && Layout(t2) && Kind(t1) == KIND_ARRAY
  {
    EqualCommon(t1, t2) && t1.refs[0] == t2.refs[0] && t1.refs[1] == t2.refs[1] && t1.sig.vals[0] == t2.sig.vals[0]
  }

  predicate CompatArray(t1: BtfType, t2: BtfType)
    requires Layout(t1) && Layout(t2) && Kind(t1) == KIND_ARRAY
  {
    EqualCommon(t1, t2) && t1.sig.vals[0] == t2.sig.vals[0]
  }

  predicate EqualFnproto(t1: BtfType, t2: BtfType)
    requires Layout(t1) && Layout(t2) && Kind(t1) == KIND_FUNC_PROTO
  {
    && EqualCommon(t1, t2)
    && (forall i :: 0 <= i < Vlen(t1) ==> t1.sig.names[i] == t2.sig.names[i])
    && (forall i :: 1 <= i <= Vlen(t1) ==> t1.refs[i] == t2.refs[i])
  }

  predicate CompatFnproto(t1: BtfType, t2: BtfType)
    requires Layout(t1) && Layout(t2) && Kind(t1) == KIND_FUNC_PROTO
  {
    t1.sig.name == t2.sig.name && t1.sig.info == t2.sig.info &&
    forall i :: 0 <= i < Vlen(t1) ==> t1.sig.names[i] == t2.sig.names[i]
  }

  // ----- what the comparisons establish

  lemma EqualIntMeans(t1: BtfType, t2: BtfType)
    requires Layout(t1) && Layout(t2) && Kind(t1) == KIND_INT
    ensures EqualInt(t1, t2) <==> t1 == t2
  {
    if EqualInt(t1, t2) {
      assert t1.sig.vals == t2.sig.vals && t1.sig.names == t2.sig.names && t1.refs == t2.refs;
    }
  }

  lemma EqualFwdMeans(t1: BtfType, t2: BtfType)
    requires Layout(t1) && Layout(t2) && (SingleRefKind(Kind(t1)) || IsFwd(t1))
    ensures EqualCommon(t1, t2) <==> t1 == t2
  {
    if EqualCommon(t1, t2) {
      assert t1.sig.vals == t2.sig.vals && t1.sig.names == t2.sig.names && t1.refs == t2.refs;
    }
  }

  lemma EqualEnumMeans(t1: BtfType, t2: BtfType)
    requires Layout(t1) && Layout(t2) && IsEnum(t1)
    ensures EqualEnum(t1, t2) <==> t1 == t2
  {
    if EqualEnum(t1, t2) {
      assert t1.sig.vals == t2.sig.vals && t1.sig.names == t2.sig.names && t1.refs == t2.refs;
    }
  }

  lemma EqualArrayMeans(t1: BtfType, t2: BtfType)
    requires Layout(t1) && Layout(t2) && Kind(t1) == KIND_ARRAY
    ensures EqualArray(t1, t2) <==> t1 == t2
    ensures CompatArray(t1, t2) <==> t1.sig == t2.sig
  {
    if CompatArray(t1, t2) {
      assert t1.sig.vals == t2.sig.vals && t1.sig.names == t2.sig.names;
      if EqualArray(t1, t2) { assert t1.refs == t2.refs; }
    }
  }

  lemma EqualFnprotoMeans(t1: BtfType, t2: BtfType)
    requires Layout(t1) && Layout(t2) && Kind(t1) == KIND_FUNC_PROTO
    ensures EqualFnproto(t1, t2) <==> t1 == t2
    ensures CompatFnproto(t1, t2) <==> t1.sig == t2.sig
  {
    if CompatFnproto(t1, t2) {
      assert t1.sig.vals == t2.sig.vals && t1.sig.names == t2.sig.names;
      if EqualFnproto(t1, t2) { assert t1.refs == t2.refs; }
    }
  }

  lemma ShallowEqualStructMeans(t1: BtfType, t2: BtfType)
    requires Layout(t1) && Layout(t2) && IsComposite(t1)
    ensures ShallowEqualStruct(t1, t2) <==> t1.sig == t2.sig
  {
    if ShallowEqualStruct(t1, t2) {
      assert t1.sig.vals == t2.sig.vals && t1.sig.names == t2.sig.names;
    }
  }

  /** Two compatible enums are equal, or exactly one of them is a forward. */
  lemma CompatEnumMeans(t1: BtfType, t2: BtfType)
    requires Layout(t1) && Layout(t2) && IsEnum(t1)
    requires CompatEnum(t1, t2)
    ensures IsEnum(t2) && (t1 == t2 || (IsEnumFwd(t1) <==> !IsEnumFwd(t2)))
  {
    if !IsEnumFwd(t1) && !IsEnumFwd(t2) {
      EqualEnumMeans(t1, t2);
    } else {
      InfoSplit(t1.sig.info);
      InfoSplit(t2.sig.info);
      if IsEnumFwd(t1) && IsEnumFwd(t2) {
        assert t1.sig.vals == t2.sig.vals && t1.sig.names == t2.sig.names && t1.refs == t2.refs;
      }
    }
  }

  lemma InfoSplit(info: nat)
    ensures info == InfoHigh(info) * 0x1_0000 + InfoVlen(info)
    ensures InfoKind(info) == InfoHigh(info) / 0x100 % 16
  {
    assert info / 0x100_0000 == info / 0x1_0000 / 0x100;
  }

  // ----- signature hashes, in the 64-bit arithmetic of `long`

  function HashCombine(h: u64, value: int): u64 { (h * 31 + value) % TWO64 }

  function HashCommon(t: BtfType): u64
    requires Layout(t)
  {
    HashCombine(HashCombine(HashCombine(0, t.sig.name), t.sig.info), SizeOrType(t))
  }

  function HashInt(t: BtfType): u64
    requires Layout(t) && Kind(t) == KIND_INT
  {
    HashCombine(HashCommon(t), t.sig.vals[0])
  }

  function HashEnum(t: BtfType): u64
    requires Layout(t)
  {
    HashCombine(HashCombine(HashCombine(0, t.sig.name), InfoHigh(t.sig.info) * 0x1_0000), SizeOrType(t))
  }

  function HashPairs(h: u64, xs: seq<int>, ys: seq<int>): u64
    requires |xs| == |ys|
    decreases |xs|
  {
    if xs == [] then h else HashPairs(HashCombine(HashCombine(h, xs[0]), ys[0]), xs[1..], ys[1..])
  }

  function HashStruct(t: BtfType): u64
    requires Layout(t) && IsComposite(t)
  {
    HashPairs(HashCommon(t), t.sig.names, t.sig.vals)
  }

  function HashArray(t: BtfType): u64
    requires Layout(t) && Kind(t) == KIND_ARRAY
  {
    HashCombine(HashCombine(HashCombine(HashCommon(t), t.refs[0]), t.refs[1]), t.sig.vals[0])
  }

  function HashFnproto(t: BtfType): u64
    requires Layout(t) && Kind(t) == KIND_FUNC_PROTO
  {
    HashPairs(HashCommon(t), t.sig.names, t.refs[1..])
  }
}
