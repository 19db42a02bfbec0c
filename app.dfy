/** The cursor over the shared buffer: `ExpectReplApp` in
    crates/repl_expect/src/app.rs.  It owns an `offset` to the next undecoded
    value; each call resets the memory's `bytesRead`, lets the transform
    callback read through the memory, and then moves `offset` past everything
    that was read.

    A transform callback is modelled by the reads it makes: a function from
    what it is handed (the returned value's bytes, or an address) to the list
    of reads, performed in order through `ExpectMemory.Perform`.
 */
module App {
  import opened Memory

  /** What the transform was handed: the bytes of the return slot
      (`call_function`) or the address of the value (the other calls). */
  datatype Input = Slot(bytes: seq<byte>) | Addr(addr: nat)

  /** The data a transform builds its expression from: its input and the
      values of its reads, in order. */
  datatype Expr = Built(input: Input, values: seq<Value>)

  /** The reads of the string probe in `call_function_returns_roc_str`:
      the tag byte as an `i8`, then the length word when the record is large. */
  function ProbeReads(mem: seq<byte>, addr: nat): seq<Read>
    requires addr + WIDTH <= |mem|
  {
    [Num(I8, addr + WIDTH - 1)]
      + if IsSmall(mem[addr + WIDTH - 1]) then [] else [Num(Usize, addr + WORD)]
  }

  /** The bytes the string probe adds to `bytes_read`: 1 for a small record,
      1 + 8 for a large one. */
  function ProbeCost(mem: seq<byte>, addr: nat): (n: nat)
    requires addr + WIDTH <= |mem|
    ensures n == 1 || n == 1 + WORD
    ensures n == 1 <==> IsSmall(mem[addr + WIDTH - 1])
  {
    var rs := ProbeReads(mem, addr);
    assert TotalCost(rs[..1]) == TotalCost([]) + Cost(rs[0]);
    TotalCost(rs)
  }

  /** The heap payload `call_function_returns_roc_str` skips after the call:
      the length word of a large record, nothing for a small one.  For a
      readable record it is exactly the length of the string `deref_str`
      returns when large. */
  function HeapLength(mem: seq<byte>, addr: nat): (n: nat)
    requires addr + WIDTH <= |mem|
    ensures IsSmall(mem[addr + WIDTH - 1]) ==> n == 0
    ensures StrReadable(mem, addr) && !IsSmall(mem[addr + WIDTH - 1]) ==> n == |StrAt(mem, addr)|
  {
    if IsSmall(mem[addr + WIDTH - 1]) then 0 else Word(mem, addr + WORD)
  }

  class ExpectReplApp {
    const memory: ExpectMemory
    var offset: nat

    constructor (memory: ExpectMemory, offset: nat)
      ensures this.memory == memory && this.offset == offset
    {
      this.memory := memory;
      this.offset := offset;
    }

    /** `call_function::<Return>` with `size_of::<Return>() == retSize`: the
        offset moves past the return slot and past every byte the transform
        read. */
    method CallFunction(retSize: nat, transform: seq<byte> -> seq<Read>) returns (e: Expr)
      requires offset + retSize <= |memory.bytes|
      requires AllReadable(memory.bytes, transform(memory.bytes[offset..offset + retSize]))
      modifies this, memory
      ensures var slot := memory.bytes[old(offset)..old(offset) + retSize];
              && e == Built(Slot(slot), ValuesOf(memory.bytes, transform(slot)))
              && memory.bytesRead == TotalCost(transform(slot))
              && offset == old(offset) + retSize + TotalCost(transform(slot))
    {
      var result := memory.bytes[offset..offset + retSize];
      offset := offset + retSize;
      memory.bytesRead := 0;
      var values := memory.Perform(transform(result));
      var transformed := Built(Slot(result), values);
      offset := offset + memory.bytesRead;
      e := transformed;
    }

    /** `call_function_returns_roc_list`: `call_function` with a three-word
        `(usize, usize, usize)` return slot. */
    method CallFunctionReturnsRocList(transform: seq<byte> -> seq<Read>) returns (e: Expr)
      requires offset + 3 * WORD <= |memory.bytes|
      requires AllReadable(memory.bytes, transform(memory.bytes[offset..offset + 3 * WORD]))
      modifies this, memory
      ensures var slot := memory.bytes[old(offset)..old(offset) + 3 * WORD];
              && e == Built(Slot(slot), ValuesOf(memory.bytes, transform(slot)))
              && memory.bytesRead == TotalCost(transform(slot))
              && offset == old(offset) + 3 * WORD + TotalCost(transform(slot))
    {
      e := CallFunction(3 * WORD, transform);
    }

    /** `call_function_dynamic_size`: the transform gets the current offset as
        the address, and the offset moves by exactly the bytes it read;
        `retBytes` plays no part. */
    method CallFunctionDynamicSize(retBytes: nat, transform: nat -> seq<Read>) returns (e: Expr)
      requires AllReadable(memory.bytes, transform(offset))
      modifies this, memory
      ensures e == Built(Addr(old(offset)), ValuesOf(memory.bytes, transform(old(offset))))
      ensures memory.bytesRead == TotalCost(transform(old(offset)))
      ensures offset == old(offset) + TotalCost(transform(old(offset)))
    {
      memory.bytesRead := 0;
      var values := memory.Perform(transform(offset));
      var result := Built(Addr(offset), values);
      offset := offset + memory.bytesRead;
      e := result;
    }

    /** `call_function_returns_roc_str`: `call_function_dynamic_size` (with
        `retBytes` 24) around a closure that first probes the tag byte and, for
        a large record, the length word, then runs the transform.  The probe
        counts in `bytesRead` like the transform's own reads; afterwards the
        offset also skips the heap payload of a large string. */
    method CallFunctionReturnsRocStr(transform: nat -> seq<Read>) returns (e: Expr)
      requires offset + WIDTH <= |memory.bytes|
      requires AllReadable(memory.bytes, transform(offset))
      modifies this, memory
      ensures e == Built(Addr(old(offset)), ValuesOf(memory.bytes, transform(old(offset))))
      ensures memory.bytesRead
              == ProbeCost(memory.bytes, old(offset)) + TotalCost(transform(old(offset)))
      ensures offset == old(offset) + ProbeCost(memory.bytes, old(offset))
                        + TotalCost(transform(old(offset)))
                        + HeapLength(memory.bytes, old(offset))
    {
      var stringLength := 0;
      // call_function_dynamic_size, with the closure written out in place
      memory.bytesRead := 0;
      var addr := offset;
      var lastByte := memory.DerefI8(addr + WIDTH - 1);
      var isSmall := lastByte < 0;
      if !isSmall {
        var length := memory.DerefUsize(addr + WORD);
        stringLength := length;
      }
      var values := memory.Perform(transform(addr));
      var result := Built(Addr(addr), values);
      offset := offset + memory.bytesRead;
      // back in call_function_returns_roc_str
      offset := offset + stringLength;
      e := result;
    }
  }
}
