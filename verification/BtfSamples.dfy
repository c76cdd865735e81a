/**
 Small descriptors for concrete graphs.
 */
module BtfSamples {
  import opened TypeGraph
  import opened BtfTypes

  function Void(): BtfType { Node(Signature(0, 0, 0, [], []), []) }

  function Int(): BtfType { Node(Signature(1, KIND_INT * 0x100_0000, 4, [], [32]), []) }

  function Ptr(to: nat): BtfType { Node(Signature(0, KIND_PTR * 0x100_0000, 0, [], []), [to]) }

  /** A struct with one member at offset 0. */
  function Struct1(name: nat, member: nat, t: nat): BtfType {
    Node(Signature(name, KIND_STRUCT * 0x100_0000 + 1, 8, [member], [0]), [t])
  }

  /** A struct with two members of eight bytes. */
  function Struct2(name: nat, members: (nat, nat), t: nat, u: nat): BtfType {
    Node(Signature(name, KIND_STRUCT * 0x100_0000 + 2, 16, [members.0, members.1], [0, 64]), [t, u])
  }

  function StructFwd(name: nat): BtfType { Node(Signature(name, KIND_FWD * 0x100_0000, 0, [], []), [0]) }

  lemma SampleKinds()
    ensures Kind(Void()) == KIND_UNKN && Layout(Void()) && Kind(Int()) == KIND_INT && Layout(Int())
    ensures forall to :: Kind(Ptr(to)) == KIND_PTR && Layout(Ptr(to))
    ensures forall name, member, t :: Kind(Struct1(name, member, t)) == KIND_STRUCT && Layout(Struct1(name, member, t))
    ensures forall name, members, t, u ::
              Kind(Struct2(name, members, t, u)) == KIND_STRUCT && Layout(Struct2(name, members, t, u))
    ensures forall name :: Kind(StructFwd(name)) == KIND_FWD && Layout(StructFwd(name))
    ensures forall name :: FwdKind(StructFwd(name)) == KIND_STRUCT
  {
  }
}
