/** The byte view the expectation reporter reads failed-expectation values
    from: `ExpectMemory` in crates/repl_expect/src/app.rs.  The shared buffer
    is a sequence of bytes starting at `start`; every read is an unaligned read
    of a fixed number of bytes at an offset from `start`, and every read adds
    its width to the `bytesRead` counter that the cursor consults afterwards.
 */
module Memory {

  /** A byte of the buffer. */
  newtype byte = x: int | 0 <= x < 256

  /** `size_of::<usize>()`: the model fixes a 64-bit host. */
  const WORD: nat := 8

  /** The width of a `RocStr` record: three machine words. */
  const WIDTH: nat := 3 * WORD

  /** The primitive types that have a `deref_*` read. */
  datatype NumKind =
    | Bool
    | U8 | U16 | U32 | U64 | U128 | Usize
    | I8 | I16 | I32 | I64 | I128 | Isize
    | F32 | F64

  /** `size_of::<T>()` for each primitive type (64-bit host). */
  function SizeOf(k: NumKind): (n: nat)
    ensures 1 <= n <= 16
  {
    match k
    case Bool | U8 | I8 => 1
    case U16 | I16 => 2
    case U32 | I32 | F32 => 4
    case U64 | I64 | F64 | Usize | Isize => 8
    case U128 | I128 => 16
  }

  // ---------------------------------------------------------------------
  // Little-endian words

  function Pow256(w: nat): (p: nat)
    ensures p >= 1
  {
    if w == 0 then 1 else 256 * Pow256(w - 1)
  }

  /** The unsigned number whose little-endian bytes are `b`. */
  function FromLE(b: seq<byte>): (n: nat)
    ensures n < Pow256(|b|)
  {
    if b == [] then 0 else b[0] as nat + 256 * FromLE(b[1..])
  }

  /** The `w` little-endian bytes of `n`. */
  function ToLE(n: nat, w: nat): (b: seq<byte>)
    requires n < Pow256(w)
    ensures |b| == w
  {
    if w == 0 then [] else [(n % 256) as byte] + ToLE(n / 256, w - 1)
  }

  /** Decoding the little-endian encoding of a number gives the number back. */
  lemma {:induction false} FromToLE(n: nat, w: nat)
    requires n < Pow256(w)
    ensures FromLE(ToLE(n, w)) == n
  {
    if w > 0 {
      var q, r := n / 256, n % 256;
      DivBound(n, w);
      var tail := ToLE(q, w - 1);
      var b := ToLE(n, w);
      assert b == [r as byte] + tail;
      assert b[1..] == tail;
      FromToLE(q, w - 1);
      assert FromLE(b) == r + 256 * q;
    }
  }

  lemma DivBound(n: nat, w: nat)
    requires w > 0 && n < Pow256(w)
    ensures n / 256 < Pow256(w - 1)
  {
  }

  /** A number below half the range has its last little-endian byte below 0x80. */
  lemma {:induction false} ToLEHighByte(n: nat, w: nat)
    requires 1 <= w
    requires n < 128 * Pow256(w - 1)
    ensures ToLE(n, w)[w - 1] < 0x80
  {
    if w > 1 {
      assert n / 256 < 128 * Pow256(w - 2) by {
        assert 128 * Pow256(w - 1) == 256 * (128 * Pow256(w - 2));
      }
      ToLEHighByte(n / 256, w - 1);
      assert ToLE(n, w)[w - 1] == ToLE(n / 256, w - 1)[w - 2];
    }
  }

  /** `deref_usize`: the machine word at `addr`. */
  function Word(mem: seq<byte>, addr: nat): nat
    requires addr + WORD <= |mem|
  {
    FromLE(mem[addr..addr + WORD])
  }

  /** The byte read as an `i8` (two's complement). */
  function ToI8(b: byte): (v: int)
    ensures -128 <= v < 128
  {
    if b < 0x80 then b as int else b as int - 256
  }

  /** A byte read as `i8` is negative exactly when its high bit (bit 7) is set. */
  lemma ToI8NegativeIffHighBit(b: byte)
    ensures ToI8(b) < 0 <==> (b as int / 128) % 2 == 1
  {
  }

  // ---------------------------------------------------------------------
  // The three-word string record

  /** The small/inline form is flagged by the last byte read as a negative `i8`. */
  predicate IsSmall(last: byte) {
    ToI8(last) < 0
  }

  /** The inline length of a small record: the low seven bits of its last byte
      (the `RocStr` convention of roc_std). */
  function SmallLen(rec: seq<byte>): nat
    requires |rec| == WIDTH
  {
    (rec[WIDTH - 1] as int % 128) as nat
  }

  /** `RocStr::as_str` on a small record: its first `SmallLen` bytes. */
  function SmallText(rec: seq<byte>): seq<byte>
    requires |rec| == WIDTH
    requires SmallLen(rec) <= WIDTH - 1
  {
    rec[..SmallLen(rec)]
  }

  /** The record at `addr` lies in the buffer and what it points at does too. */
  predicate StrReadable(mem: seq<byte>, addr: nat) {
    addr + WIDTH <= |mem| &&
    if IsSmall(mem[addr + WIDTH - 1]) then
      SmallLen(mem[addr..addr + WIDTH]) <= WIDTH - 1
    else
      Word(mem, addr) + Word(mem, addr + WORD) <= |mem|
  }

  /** The bytes of the string whose record is at `addr`: inline when small,
      otherwise `length` (word 1) bytes at `offset` (word 0); capacity (word 2)
      plays no part. */
  function StrAt(mem: seq<byte>, addr: nat): (s: seq<byte>)
    requires StrReadable(mem, addr)
    ensures IsSmall(mem[addr + WIDTH - 1]) ==> |s| < WIDTH
    ensures !IsSmall(mem[addr + WIDTH - 1]) ==> |s| == Word(mem, addr + WORD)
  {
    if IsSmall(mem[addr + WIDTH - 1]) then
      SmallText(mem[addr..addr + WIDTH])
    else
      var offset := Word(mem, addr);
      var length := Word(mem, addr + WORD);
      mem[offset..offset + length]
  }

  /** The small record a producer writes for `text`: the text, whatever
      bytes fill the rest of the inline part, and the flagged length. */
  function EncodeSmall(text: seq<byte>, pad: seq<byte>): (rec: seq<byte>)
    requires |text| + |pad| == WIDTH - 1
    ensures |rec| == WIDTH
  {
    text + pad + [(|text| + 128) as byte]
  }

  /** The large record a producer writes: offset, length and capacity words.
      A capacity below 2^63 keeps the flag bit of the last byte clear. */
  function EncodeLarge(offset: nat, length: nat, capacity: nat): (rec: seq<byte>)
    requires offset < Pow256(WORD) && length < Pow256(WORD)
    requires capacity < 128 * Pow256(WORD - 1)
    ensures |rec| == WIDTH
  {
    ToLE(offset, WORD) + ToLE(length, WORD) + ToLE(capacity, WORD)
  }

  /** A small record decodes to the text it was written for, whatever bytes
      follow the text inside the record. */
  lemma SmallRoundTrip(mem: seq<byte>, addr: nat, text: seq<byte>, pad: seq<byte>)
    requires |text| + |pad| == WIDTH - 1
    requires addr + WIDTH <= |mem|
    requires mem[addr..addr + WIDTH] == EncodeSmall(text, pad)
    ensures IsSmall(mem[addr + WIDTH - 1])
    ensures StrReadable(mem, addr) && StrAt(mem, addr) == text
  {
    var rec := mem[addr..addr + WIDTH];
    assert rec[WIDTH - 1] == mem[addr + WIDTH - 1];
    assert rec[..|text|] == text;
  }

  /** A large record decodes to the `length` bytes at `offset`. */
  lemma LargeRoundTrip(mem: seq<byte>, addr: nat, offset: nat, length: nat, capacity: nat)
    requires offset < Pow256(WORD) && length < Pow256(WORD)
    requires capacity < 128 * Pow256(WORD - 1)
    requires addr + WIDTH <= |mem|
    requires mem[addr..addr + WIDTH] == EncodeLarge(offset, length, capacity)
    requires offset + length <= |mem|
    ensures !IsSmall(mem[addr + WIDTH - 1])
    ensures StrReadable(mem, addr) && StrAt(mem, addr) == mem[offset..offset + length]
  {
    LargeHeader(mem, addr, offset, length, capacity);
  }

  /** The words of a large record read back as written, and its tag byte
      has the high bit clear. */
  lemma LargeHeader(mem: seq<byte>, addr: nat, offset: nat, length: nat, capacity: nat)
    requires offset < Pow256(WORD) && length < Pow256(WORD)
    requires capacity < 128 * Pow256(WORD - 1)
    requires addr + WIDTH <= |mem|
    requires mem[addr..addr + WIDTH] == EncodeLarge(offset, length, capacity)
    ensures Word(mem, addr) == offset && Word(mem, addr + WORD) == length
    ensures mem[addr + WIDTH - 1] < 0x80
  {
    var rec := mem[addr..addr + WIDTH];
    var lo, mid, hi := ToLE(offset, WORD), ToLE(length, WORD), ToLE(capacity, WORD);
    assert rec[..WORD] == lo && rec[WORD..2 * WORD] == mid && rec[2 * WORD..] == hi;
    SubSlice(mem, addr, rec, 0, WORD);
    SubSlice(mem, addr, rec, WORD, 2 * WORD);
    assert mem[addr + WIDTH - 1] == hi[WORD - 1];
    FromToLE(offset, WORD);
    FromToLE(length, WORD);
    ToLEHighByte(capacity, WORD);
  }

  /** A slice of a record is the same slice of the buffer it sits in. */
  lemma SubSlice(mem: seq<byte>, addr: nat, rec: seq<byte>, i: nat, j: nat)
    requires addr + |rec| <= |mem| && mem[addr..addr + |rec|] == rec
    requires i <= j <= |rec|
    ensures mem[addr + i..addr + j] == rec[i..j]
  {
    forall k | 0 <= k < j - i
      ensures mem[addr + i..addr + j][k] == rec[i..j][k]
    {
      assert mem[addr + i + k] == mem[addr..addr + |rec|][i + k];
    }
  }

  // ---------------------------------------------------------------------
  // Reads a transform callback performs through the memory

  /** One read a transform makes: a `deref_<kind>` or a `deref_str`. */
  datatype Read = Num(kind: NumKind, addr: nat) | Str(addr: nat)

  /** What a read yields: raw bits of a number, or the bytes of a string. */
  datatype Value = Bits(kind: NumKind, bits: seq<byte>) | Text(bytes: seq<byte>)

  predicate Readable(mem: seq<byte>, r: Read) {
    match r
    case Num(k, a) => a + SizeOf(k) <= |mem|
    case Str(a) => StrReadable(mem, a)
  }

  predicate AllReadable(mem: seq<byte>, rs: seq<Read>) {
    forall i :: 0 <= i < |rs| ==> Readable(mem, rs[i])
  }

  /** The bytes a read adds to `bytes_read`. */
  function Cost(r: Read): nat {
    match r
    case Num(k, _) => SizeOf(k)
    case Str(_) => WIDTH
  }

  /** The bytes a list of reads adds to `bytes_read`. */
  function TotalCost(rs: seq<Read>): nat {
    if rs == [] then 0 else TotalCost(rs[..|rs| - 1]) + Cost(rs[|rs| - 1])
  }

  function ValueOf(mem: seq<byte>, r: Read): Value
    requires Readable(mem, r)
  {
    match r
    case Num(k, a) => Bits(k, mem[a..a + SizeOf(k)])
    case Str(a) => Text(StrAt(mem, a))
  }

  /** The values a list of reads yields, one per read, in order. */
  function ValuesOf(mem: seq<byte>, rs: seq<Read>): (vs: seq<Value>)
    requires AllReadable(mem, rs)
    ensures |vs| == |rs|
    ensures forall i :: 0 <= i < |rs| ==> vs[i] == ValueOf(mem, rs[i])
  {
    if rs == [] then [] else ValuesOf(mem, rs[..|rs| - 1]) + [ValueOf(mem, rs[|rs| - 1])]
  }

  /** The shared buffer and its read counter. */
  class ExpectMemory {
    /** The bytes from `start` onwards. */
    const bytes: seq<byte>
    var bytesRead: nat

    constructor (region: seq<byte>)
      ensures bytes == region && bytesRead == 0
    {
      bytes := region;
      bytesRead := 0;
    }

    /** `deref_<kind>`: the `SizeOf(kind)` bytes at `addr`, no alignment needed. */
    method DerefNum(kind: NumKind, addr: nat) returns (v: seq<byte>)
      requires addr + SizeOf(kind) <= |bytes|
      modifies this
      ensures bytesRead == old(bytesRead) + SizeOf(kind)
      ensures v == bytes[addr..addr + SizeOf(kind)]
    {
      bytesRead := bytesRead + SizeOf(kind);
      v := bytes[addr..addr + SizeOf(kind)];
    }

    /** `deref_i8`. */
    method DerefI8(addr: nat) returns (v: int)
      requires addr < |bytes|
      modifies this
      ensures bytesRead == old(bytesRead) + 1
      ensures v == ToI8(bytes[addr])
    {
      var b := DerefNum(I8, addr);
      v := ToI8(b[0]);
    }

    /** `deref_usize`. */
    method DerefUsize(addr: nat) returns (v: nat)
      requires addr + WORD <= |bytes|
      modifies this
      ensures bytesRead == old(bytesRead) + WORD
      ensures v == Word(bytes, addr)
    {
      var b := DerefNum(Usize, addr);
      v := FromLE(b);
    }

    /** `deref_str`: both forms add exactly `WIDTH` to the counter. */
    method DerefStr(addr: nat) returns (s: seq<byte>)
      requires StrReadable(bytes, addr)
      modifies this
      ensures bytesRead == old(bytesRead) + WIDTH
      ensures s == StrAt(bytes, addr)
    {
      var lastByte := DerefI8(addr + WIDTH - 1);
      var isSmall := lastByte < 0;
      if isSmall {
        bytesRead := bytesRead + (WIDTH - 1);
        s := SmallText(bytes[addr..addr + WIDTH]);
      } else {
        var offset := DerefUsize(addr);
        var length := DerefUsize(addr + WORD);
        var _ := DerefUsize(addr + 2 * WORD);
        // the last byte has now been counted twice
        bytesRead := bytesRead - 1;
        s := bytes[offset..offset + length];
      }
    }

    /** The reads of a transform callback, made one after another. */
    method Perform(plan: seq<Read>) returns (vals: seq<Value>)
      requires AllReadable(bytes, plan)
      modifies this
      ensures bytesRead == old(bytesRead) + TotalCost(plan)
      ensures vals == ValuesOf(bytes, plan)
    {
      vals := [];
      var i := 0;
      while i < |plan|
        invariant 0 <= i <= |plan|
        invariant bytesRead == old(bytesRead) + TotalCost(plan[..i])
        invariant vals == ValuesOf(bytes, plan[..i])
      {
        var v: Value;
        match plan[i] {
          case Num(k, a) =>
            var b := DerefNum(k, a);
            v := Bits(k, b);
          case Str(a) =>
            var t := DerefStr(a);
            v := Text(t);
        }
        assert plan[..i + 1][..i] == plan[..i];
        vals := vals + [v];
        i := i + 1;
      }
      assert plan[..i] == plan;
    }
  }
}
