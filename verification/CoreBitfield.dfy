/**
 CO-RE bitfield relocation on a little-endian target: how libbpf computes the byte
 window and the shifts of a bitfield, and how a program reads the field with them.
 */
module CoreBitfield {
  import opened Powers

  // ----- little-endian memory as a number

  type Memory = seq<nat>

  predicate IsMemory(mem: Memory) {
    forall i :: 0 <= i < |mem| ==> mem[i] < 256
  }

  /** The `n` bytes at `off` as one number, least significant byte first. */
  function Load(mem: Memory, off: nat, n: nat): nat
    requires off + n <= |mem|
    decreases n
  {
    if n == 0 then 0 else mem[off] + 256 * Load(mem, off + 1, n - 1)
  }

  /** The whole memory as one number: bit `k` of memory is bit `k` of the number. */
  function LeValue(mem: Memory): nat { Load(mem, 0, |mem|) }

  lemma {:induction false} LoadBound(mem: Memory, off: nat, n: nat)
    requires IsMemory(mem) && off + n <= |mem|
    ensures Load(mem, off, n) < Pow2(8 * n)
    decreases n
  {
    if n > 0 {
      LoadBound(mem, off + 1, n - 1);
      ByteStep(n);
    }
  }

  lemma {:induction false} ByteStep(n: nat)
    requires n > 0
    ensures Pow2(8 * n) == 256 * Pow2(8 * (n - 1))
  {
    Pow2Split(8 * n, 8);
    assert Pow2(4) == 16;
    Pow2Add(4, 4);
  }

  lemma {:induction false} LoadSplit(mem: Memory, off: nat, a: nat, b: nat)
    requires off + a + b <= |mem|
    ensures Load(mem, off, a + b) == Load(mem, off, a) + Pow2(8 * a) * Load(mem, off + a, b)
    decreases a
  {
    if a > 0 {
      LoadSplit(mem, off + 1, a - 1, b);
      ByteStep(a);
      RegroupByte(mem[off], Load(mem, off + 1, a - 1), Pow2(8 * (a - 1)), Load(mem, off + a, b));
    }
  }

  lemma RegroupByte(x: nat, y: nat, p: nat, v: nat)
    ensures x + 256 * (y + p * v) == (x + 256 * y) + (256 * p) * v
  {
  }

  /** `bits` bits of a number from bit `off` on. */
  function Bits(v: nat, off: nat, bits: nat): nat {
    DivNonNegative(v, Pow2(off));
    v / Pow2(off) % Pow2(bits)
  }

  lemma BitsInWindow(v: nat, n: nat, off: nat, bits: nat)
    requires off + bits <= n
    ensures Bits(v % Pow2(n), off, bits) == Bits(v, off, bits)
  {
    Pow2Split(n, off);
    Pow2Split(n - off, bits);
    CutAbove(v, Pow2(off), Pow2(bits), Pow2(n - off - bits));
  }

  /** Cutting low bits first shifts the offset. */
  lemma BitsAfterShift(v: nat, a: nat, off: nat, bits: nat)
    requires a <= off
    ensures v / Pow2(a) >= 0 && Bits(v / Pow2(a), off - a, bits) == Bits(v, off, bits)
  {
    DivNonNegative(v, Pow2(a));
    DivDiv(v, Pow2(a), Pow2(off - a));
    Pow2Split(off, a);
  }

  /** A window of memory holds the bits it covers. */
  lemma {:induction false} WindowValue(mem: Memory, off: nat, sz: nat)
    requires IsMemory(mem) && off + sz <= |mem|
    ensures Load(mem, off, sz) == Bits(LeValue(mem), 8 * off, 8 * sz)
  {
    var rest := |mem| - off - sz;
    ThreeParts(mem, off, sz, rest);
    LoadBound(mem, 0, off);
    LoadBound(mem, off, sz);
    MiddleBits(LeValue(mem), Load(mem, 0, off), Load(mem, off, sz), Load(mem, off + sz, rest), 8 * off, 8 * sz);
  }

  lemma {:induction false} MiddleBits(v: nat, x: nat, y: nat, z: nat, off: nat, bits: nat)
    requires v == x + Pow2(off) * (y + Pow2(bits) * z) && x < Pow2(off) && y < Pow2(bits)
    ensures Bits(v, off, bits) == y
  {
    MiddleDigit(v, y + Pow2(bits) * z, x, y, z, Pow2(off), Pow2(bits));
  }

  lemma {:induction false} ThreeParts(mem: Memory, a: nat, b: nat, c: nat)
    requires a + b + c == |mem|
    ensures LeValue(mem) == Load(mem, 0, a) + Pow2(8 * a) * (Load(mem, a, b) + Pow2(8 * b) * Load(mem, a + b, c))
  {
    LoadSplit(mem, 0, a, b + c);
    LoadSplit(mem, a, b, c);
  }

  // ----- relocation

  datatype Window = Window(byteOff: nat, byteSz: nat) | TooBig

  /** The byte offset of the aligned `sz`-byte word holding bit `bitOff`. */
  function AlignedOff(bitOff: nat, sz: nat): nat
    requires sz > 0
  {
    DivNonNegative(bitOff / 8, sz);
    bitOff / 8 / sz * sz
  }

  predicate IsWordSize(sz: nat) { sz == 1 || sz == 2 || sz == 4 || sz == 8 }

  /** The field lies within the aligned word of `sz` bytes that holds its first bit. */
  predicate Fits(bitOff: nat, bitSz: nat, sz: nat)
    requires sz > 0
  {
    bitOff + bitSz - AlignedOff(bitOff, sz) * 8 <= sz * 8
  }

  /** No word size from `lo` up to but excluding `hi` holds the field. */
  predicate NoneFits(bitOff: nat, bitSz: nat, lo: nat, hi: nat) {
    forall sz: nat :: IsWordSize(sz) && lo <= sz < hi ==> !Fits(bitOff, bitSz, sz)
  }

  /** Bits from byte `byteOff` to the end of the field, in 32-bit arithmetic. */
  function Distance(bitOff: u32, bitSz: nat, byteOff: nat): u32 {
    (bitOff + bitSz - byteOff * 8) % TWO32
  }

  /** The distance never wraps around, so the loop's test is `Fits`. */
  lemma DistanceDecides(bitOff: u32, bitSz: nat, sz: nat)
    requires bitSz < 256 && IsWordSize(sz)
    ensures Distance(bitOff, bitSz, AlignedOff(bitOff, sz)) <= sz * 8 <==> Fits(bitOff, bitSz, sz)
  {
    AlignedOffBelow(bitOff, sz);
    ModUnique(bitOff + bitSz - AlignedOff(bitOff, sz) * 8, TWO32, 0, bitOff + bitSz - AlignedOff(bitOff, sz) * 8);
  }

  /** Doubling the word skips no size. */
  lemma NextSize(bitOff: nat, bitSz: nat, lo: nat, sz: nat)
    requires IsWordSize(sz) && NoneFits(bitOff, bitSz, lo, sz) && !Fits(bitOff, bitSz, sz)
    ensures NoneFits(bitOff, bitSz, lo, sz * 2)
  {
    forall s: nat | IsWordSize(s) && lo <= s < sz * 2 ensures !Fits(bitOff, bitSz, s) {
      if s >= sz { assert s == sz; }
    }
  }

  /** The bitfield part of `bpf_core_calc_field_relo`, in 32-bit arithmetic: the smallest aligned
      word, starting from the size of the field's declared type, that holds the whole field. */
  method CalcWindow(bitOff: u32, bitSz: nat, typeSize: nat) returns (w: Window)
    requires IsWordSize(typeSize) && 0 < bitSz < 256
    ensures w.TooBig? <==> NoneFits(bitOff, bitSz, typeSize, 9)
    ensures w.Window? ==> IsWordSize(w.byteSz) && w.byteSz >= typeSize && w.byteOff == AlignedOff(bitOff, w.byteSz)
    ensures w.Window? ==> Fits(bitOff, bitSz, w.byteSz) && NoneFits(bitOff, bitSz, typeSize, w.byteSz)
  {
    var byteSz := typeSize;
    var byteOff := AlignedOff(bitOff, byteSz);
    DistanceDecides(bitOff, bitSz, byteSz);
    while Distance(bitOff, bitSz, byteOff) > byteSz * 8
      invariant IsWordSize(byteSz) && byteSz >= typeSize && byteOff == AlignedOff(bitOff, byteSz)
      invariant Distance(bitOff, bitSz, byteOff) <= byteSz * 8 <==> Fits(bitOff, bitSz, byteSz)
      invariant NoneFits(bitOff, bitSz, typeSize, byteSz)
      decreases 16 - byteSz
    {
      NextSize(bitOff, bitSz, typeSize, byteSz);
      if byteSz >= 8 { return TooBig; }
      byteSz := byteSz * 2;
      byteOff := AlignedOff(bitOff, byteSz);
      DistanceDecides(bitOff, bitSz, byteSz);
    }
    return Window(byteOff, byteSz);
  }

  lemma {:induction false} AlignedOffBelow(bitOff: nat, sz: nat)
    requires IsWordSize(sz)
    ensures AlignedOff(bitOff, sz) * 8 <= bitOff < AlignedOff(bitOff, sz) * 8 + sz * 8
    ensures AlignedOff(bitOff, sz) % sz == 0
  {
  }

  // ----- the relocated values and the reader

  /** The values of the relocations of one field: BYTE_OFFSET, BYTE_SIZE, SIGNED, LSHIFT_U64, RSHIFT_U64. */
  datatype Relo = Relo(byteOff: nat, byteSz: nat, signed: bool, lshift: nat, rshift: nat)

  /** How the field's type is declared. */
  datatype FieldType = EnumType | IntType(signedEncoding: bool)

  /** The field's relocations; `signed` is set for enums as well as for signed integers. */
  function RelocateWith(bitOff: nat, bitSz: nat, t: FieldType, w: Window): Relo
    requires w.Window? && w.byteOff * 8 <= bitOff && bitOff + bitSz - w.byteOff * 8 <= 64
  {
    Relo(w.byteOff, w.byteSz, t.EnumType? || t.signedEncoding, 64 - (bitOff + bitSz - w.byteOff * 8), 64 - bitSz)
  }

  function ShiftLeft64(v: nat, n: nat): u64 { v * Pow2(n) % TWO64 }

  /** Arithmetic shift right of a 64-bit word. */
  function ShiftRightSigned(v: u64, n: nat): u64 {
    if v < TWO64 / 2 then
      DivNonNegative(v, Pow2(n));
      DivAtMost(v, Pow2(n));
      v / Pow2(n)
    else (v - TWO64) / Pow2(n) % TWO64
  }

  lemma DivAtMost(v: nat, d: nat)
    requires d > 0
    ensures v / d <= v
  {
    var q := v / d;
    DivNonNegative(v, d);
    assert v == q * d + v % d;
    MulMono(1, d, q);
  }

  /** BPF_CORE_READ_BITFIELD_PROBED, on memory that holds the window: with relocations that describe
      a field it yields exactly the field's bits, zero- or sign-extended. */
  method ReadBitfield(mem: Memory, r: Relo, ghost bitOff: nat, ghost bitSz: nat) returns (val: u64)
    requires IsMemory(mem) && r.byteOff + r.byteSz <= |mem| && Describes(r, bitOff, bitSz)
    ensures val == Extended(Bits(LeValue(mem), bitOff, bitSz), bitSz, r.signed)
  {
    LoadedWord(mem, r);
    ReadIsField(mem, r, bitOff, bitSz, Bits(LeValue(mem), bitOff, bitSz));
    var v: u64 := Load(mem, r.byteOff, r.byteSz);
    v := ShiftLeft64(v, r.lshift);
    if r.signed {
      v := ShiftRightSigned(v, r.rshift);
    } else {
      DivNonNegative(v, Pow2(r.rshift));
      DivAtMost(v, Pow2(r.rshift));
      v := v / Pow2(r.rshift);
    }
    return v;
  }

  lemma LoadedWord(mem: Memory, r: Relo)
    requires IsMemory(mem) && r.byteOff + r.byteSz <= |mem| && r.byteSz <= 8
    ensures Load(mem, r.byteOff, r.byteSz) < TWO64
  {
    LoadBound(mem, r.byteOff, r.byteSz);
    Pow2Mono(8 * r.byteSz, 64);
    Pow2Of64();
  }

  /** What the reader computes from the window and the shifts. */
  function ReadValue(mem: Memory, r: Relo): u64
    requires IsMemory(mem) && r.byteOff + r.byteSz <= |mem| && r.byteSz <= 8
  {
    Shifted(Load(mem, r.byteOff, r.byteSz), r.lshift, r.rshift, r.signed)
  }

  /** The two shifts of the reader on the loaded word. */
  function Shifted(word: nat, lshift: nat, rshift: nat, signed: bool): u64 {
    var v := ShiftLeft64(word, lshift);
    if signed then ShiftRightSigned(v, rshift)
    else
      DivNonNegative(v, Pow2(rshift));
      DivAtMost(v, Pow2(rshift));
      v / Pow2(rshift)
  }

  /** The field as a 64-bit word, zero- or sign-extended. */
  function Extended(field: nat, bitSz: nat, signed: bool): int
    requires bitSz > 0
  {
    if signed && field >= Pow2(bitSz - 1) then field - Pow2(bitSz) + TWO64 else field
  }

  // ----- correctness

  /** Shifting left drops everything above the field: what is left is the field and the bits below
      it, moved to the top. */
  lemma AfterLeftShift(b: nat, o: nat, bitSz: nat)
    requires o + bitSz <= 64
    ensures ShiftLeft64(b, 64 - (o + bitSz)) == b % Pow2(o + bitSz) * Pow2(64 - (o + bitSz))
  {
    Pow2Of64();
    Pow2Split(64, o + bitSz);
    ScaleMod(b, Pow2(o + bitSz), Pow2(64 - (o + bitSz)));
  }

  /** Shifting back right leaves the field. */
  lemma AfterRightShift(lo: nat, o: nat, bitSz: nat)
    requires o + bitSz <= 64
    ensures lo * Pow2(64 - (o + bitSz)) / Pow2(64 - bitSz) == lo / Pow2(o)
  {
    var l, po := Pow2(64 - (o + bitSz)), Pow2(o);
    Pow2Add(64 - (o + bitSz), o);
    assert lo * l >= 0;
    DivDiv(lo * l, l, po);
    ModUnique(lo * l, l, lo, 0);
  }

  /** The field in the loaded word, between `o` low bits and whatever lies above. */
  lemma FieldOfWord(b: nat, o: nat, bitSz: nat)
    ensures b % Pow2(o + bitSz) / Pow2(o) == Bits(b, o, bitSz) < Pow2(bitSz)
  {
    Pow2Add(o, bitSz);
    UpperDigit(b, Pow2(o), Pow2(bitSz));
  }

  /** The word is negative after the left shift exactly when the field's top bit is set. */
  lemma {:induction false} TopBit(lo: nat, o: nat, bitSz: nat)
    requires 0 < bitSz && o + bitSz <= 64
    ensures lo * Pow2(64 - (o + bitSz)) >= TWO64 / 2 <==> lo / Pow2(o) >= Pow2(bitSz - 1)
  {
    var l := Pow2(64 - (o + bitSz));
    Pow2Of64();
    Pow2Add(o + bitSz - 1, 64 - (o + bitSz));
    assert Pow2(64) == 2 * Pow2(63);
    ScaleOrder(lo, Pow2(o + bitSz - 1), l);
    Pow2Add(bitSz - 1, o);
    DivOrder(lo, Pow2(bitSz - 1), Pow2(o));
  }

  /** The arithmetic shift of a negative word. */
  lemma {:induction false} NegativeShift(v: u64, bitSz: nat, f: nat)
    requires 0 < bitSz <= 64 && v >= TWO64 / 2 && v / Pow2(64 - bitSz) == f < Pow2(bitSz)
    ensures ShiftRightSigned(v, 64 - bitSz) == f - Pow2(bitSz) + TWO64
  {
    Pow2Of64();
    Pow2Split(64, bitSz);
    Pow2Mono(bitSz, 64);
    WrappedQuotient(v, Pow2(64 - bitSz), Pow2(bitSz), f);
  }

  /** The shifts on a loaded word leave its field, extended. */
  lemma ShiftsLeaveField(b: nat, o: nat, bitSz: nat, signed: bool)
    requires 0 < bitSz && o + bitSz <= 64
    ensures Shifted(b, 64 - (o + bitSz), 64 - bitSz, signed) == Extended(Bits(b, o, bitSz), bitSz, signed)
  {
    var lo := b % Pow2(o + bitSz);
    AfterLeftShift(b, o, bitSz);
    AfterRightShift(lo, o, bitSz);
    FieldOfWord(b, o, bitSz);
    TopBit(lo, o, bitSz);
    var shifted := ShiftLeft64(b, 64 - (o + bitSz));
    if signed && shifted >= TWO64 / 2 { NegativeShift(shifted, bitSz, Bits(b, o, bitSz)); }
  }

  /** The relocation values `bpf_core_calc_field_relo` computes for a field in the window. */
  predicate Describes(r: Relo, bitOff: nat, bitSz: nat) {
    && 0 < bitSz && r.byteSz <= 8
    && r.byteOff * 8 <= bitOff && bitOff + bitSz - r.byteOff * 8 <= r.byteSz * 8
    && r.lshift == 64 - (bitOff + bitSz - r.byteOff * 8)
    && r.rshift == 64 - bitSz
  }

  /** Reading with the relocated window and shifts yields exactly the field's bits, zero-extended
      or, when SIGNED is set, sign-extended. */
  lemma ReadIsField(mem: Memory, r: Relo, bitOff: nat, bitSz: nat, field: nat)
    requires IsMemory(mem) && r.byteOff + r.byteSz <= |mem| && Describes(r, bitOff, bitSz)
    requires field == Bits(LeValue(mem), bitOff, bitSz)
    ensures ReadValue(mem, r) == Extended(field, bitSz, r.signed)
  {
    FieldInWindow(mem, bitOff, bitSz, r.byteOff, r.byteSz);
    ReadIsWindowField(mem, r, bitOff - r.byteOff * 8, bitSz, field);
  }

  lemma ReadIsWindowField(mem: Memory, r: Relo, o: nat, bitSz: nat, field: nat)
    requires IsMemory(mem) && r.byteOff + r.byteSz <= |mem| && r.byteSz <= 8
    requires 0 < bitSz && o + bitSz <= 64 && r.lshift == 64 - (o + bitSz) && r.rshift == 64 - bitSz
    requires field == Bits(Load(mem, r.byteOff, r.byteSz), o, bitSz)
    ensures ReadValue(mem, r) == Extended(field, bitSz, r.signed)
  {
    ShiftsLeaveField(Load(mem, r.byteOff, r.byteSz), o, bitSz, r.signed);
  }

  /** The loaded word holds the field. */
  lemma FieldInWindow(mem: Memory, bitOff: nat, bitSz: nat, byteOff: nat, byteSz: nat)
    requires IsMemory(mem) && byteOff + byteSz <= |mem|
    requires byteOff * 8 <= bitOff && bitOff + bitSz - byteOff * 8 <= byteSz * 8
    ensures Bits(Load(mem, byteOff, byteSz), bitOff - byteOff * 8, bitSz) == Bits(LeValue(mem), bitOff, bitSz)
  {
    WindowValue(mem, byteOff, byteSz);
    WindowKeepsField(LeValue(mem), byteOff, byteSz, bitOff, bitSz);
  }

  lemma WindowKeepsField(v: nat, byteOff: nat, byteSz: nat, bitOff: nat, bitSz: nat)
    requires byteOff * 8 <= bitOff && bitOff + bitSz - byteOff * 8 <= byteSz * 8
    ensures Bits(Bits(v, 8 * byteOff, 8 * byteSz), bitOff - byteOff * 8, bitSz) == Bits(v, bitOff, bitSz)
  {
    var a := 8 * byteOff;
    DivNonNegative(v, Pow2(a));
    BitsInWindow(v / Pow2(a), 8 * byteSz, bitOff - a, bitSz);
    BitsAfterShift(v, a, bitOff, bitSz);
  }

  /** Relocation and reader together, for any bitfield whose declared type is 1, 2, 4 or 8 bytes, on
      memory that holds the window read, if there is one. */
  method RelocateAndRead(mem: Memory, bitOff: u32, bitSz: nat, typeSize: nat, t: FieldType) returns (ok: bool, val: u64)
    requires IsMemory(mem) && IsWordSize(typeSize) && 0 < bitSz < 256
    requires forall sz: nat :: IsSmallest(bitOff, bitSz, typeSize, sz) ==> AlignedOff(bitOff, sz) + sz <= |mem|
    ensures ok <==> !NoneFits(bitOff, bitSz, typeSize, 9)
    ensures ok ==> val == Extended(Bits(LeValue(mem), bitOff, bitSz), bitSz, t.EnumType? || t.signedEncoding)
  {
    var w := CalcWindow(bitOff, bitSz, typeSize);
    if w.TooBig? { return false, 0; }
    AlignedOffBelow(bitOff, w.byteSz);
    assert IsSmallest(bitOff, bitSz, typeSize, w.byteSz);
    var r := RelocateWith(bitOff, bitSz, t, w);
    val := ReadBitfield(mem, r, bitOff, bitSz);
    return true, val;
  }

  /** The smallest word size, from the declared one on, whose aligned word holds the field. */
  predicate IsSmallest(bitOff: nat, bitSz: nat, typeSize: nat, sz: nat) {
    IsWordSize(sz) && sz >= typeSize && Fits(bitOff, bitSz, sz) && NoneFits(bitOff, bitSz, typeSize, sz)
  }

  /** Enum fields are read as signed, against the comment beside the code: the field itself comes
      back exactly when its top bit is clear or it fills all 64 bits. */
  lemma EnumReadsBackIff(field: nat, bitSz: nat)
    requires 0 < bitSz <= 64 && field < Pow2(bitSz)
    ensures Extended(field, bitSz, true) == field <==> field < Pow2(bitSz - 1) || bitSz == 64
  {
    Pow2Of64();
    if bitSz < 64 {
      Pow2Mono(bitSz, 63);
      assert Pow2(64) == 2 * Pow2(63);
    }
  }
}
