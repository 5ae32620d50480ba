/**
 The SRAM map: the constants of memory_layout.hpp and the address computations
 of memory.cpp. All addresses are 16-bit values kept as integers.
 */
module Layout {
  import opened Wrappers

  type Byte = x: int | 0 <= x < 256
  type Word = x: int | 0 <= x < 0x10000

  const TASKS_MAX := 5
  const QUEUE_LENGTH := 6
  const REGISTERS_START := 0x1FF
  const CANARY_START := 0x204
  const CANARY_END := 0x200
  const CANARY_VALUE: Byte := 0x66
  const OS_STACK_START := 0x3FF
  const OS_STACK_END := 0x205
  const TASK_RAM_END := 0x350
  const TASK_RAM_START := 0xFFF
  const HEAP_END := 0x1000
  const RAMEND := 0x21FF
  const TASK_MEMORY_SIZE := BlockSize(TASK_RAM_START, TASK_RAM_END, TASKS_MAX)

  /** num_context_switch_overhead_bytes(): 3 PC bytes, 32 registers, SREG. */
  const FRAME_BYTES := 3 + 32 + 1

  // Bytes per task for a RAM area [end, start] shared by n tasks.
  function BlockSize(start: nat, end: nat, n: nat): nat
    requires end <= start && 0 < n
  {
    (start - end) / n
  }

  function BlockLow(end: nat, size: nat, b: nat): nat {
    end + size * b
  }

  function BlockHigh(end: nat, size: nat, b: nat): int {
    BlockLow(end, size, b) + (size - 1)
  }

  /** task_sp_range_low; None stands for its FATAL_ERROR on an invalid block. */
  function TaskSpRangeLow(b: nat): Option<nat> {
    if b >= TASKS_MAX then None else Some(BlockLow(TASK_RAM_END, TASK_MEMORY_SIZE, b))
  }

  /** task_sp_range_high, with the same fatal case. */
  function TaskSpRangeHigh(b: nat): Option<nat> {
    match TaskSpRangeLow(b)
    case None => None
    case Some(low) => Some(low + (TASK_MEMORY_SIZE - 1))
  }

  // The two bounds on the valid blocks, worked out.
  function Low(b: nat): nat { 848 + 649 * b }
  function High(b: nat): nat { 1496 + 649 * b }

  /** They are what the two range functions compute, which are fatal on every other block. */
  lemma BoundsAgree(b: nat)
    ensures TaskSpRangeLow(b) == (if b < 5 then Some(848 + 649 * b) else None)
    ensures TaskSpRangeHigh(b) == (if b < 5 then Some(1496 + 649 * b) else None)
    ensures Low(b) == 848 + 649 * b && High(b) == 1496 + 649 * b
  {
    assert TASK_MEMORY_SIZE == 649;
  }

  /**
   For every layout that fits 16 bits, from one task on: the blocks are non-empty
   and contiguous, stay inside the task RAM, and leave between 1 and n bytes of it
   unused.
   */
  lemma BlocksTileTaskRam(start: nat, end: nat, n: nat, b: nat)
    requires 0 < n && end + n <= start < 0x10000 && b < n
    ensures var size := BlockSize(start, end, n);
            && 1 <= size
            && end <= BlockLow(end, size, b) <= BlockHigh(end, size, b)
            && BlockLow(end, size, b + 1) == BlockHigh(end, size, b) + 1
            && BlockHigh(end, size, b) <= BlockHigh(end, size, n - 1) < start
            && 1 <= (start - end + 1) - size * n <= n
  {
    var size := BlockSize(start, end, n);
    assert start - end == size * n + (start - end) % n;
    Monotone(size, 0, b);
    Monotone(size, b + 1, n);
    assert size * (b + 1) == size * b + size;
    assert size * (n - 1) == size * n - size;
  }

  /** And no two of them share a byte. */
  lemma BlocksDisjoint(start: nat, end: nat, n: nat, b: nat, c: nat)
    requires 0 < n && end + n <= start < 0x10000 && b < c < n
    ensures var size := BlockSize(start, end, n); BlockHigh(end, size, b) < BlockLow(end, size, c)
  {
    var size := BlockSize(start, end, n);
    Monotone(size, b + 1, c);
    assert size * (b + 1) == size * b + size;
  }

  lemma Monotone(k: nat, a: int, b: int)
    requires a <= b
    ensures k * a <= k * b
  {
    assert k * (b - a) >= 0;
  }

  datatype Region = Registers | RegistersCanary | OsStack | TaskRam | Heap | Init | Unknown

  predicate InRegion(address: int, start: int, end: int) {
    end <= address <= start
  }

  /** memory_region: the tests overlap, so their order matters. */
  function MemoryRegion(sp: Word, heapStart: Word): Region {
    if InRegion(sp, REGISTERS_START, 0) then Registers
    else if InRegion(sp, CANARY_START, CANARY_END) then RegistersCanary
    else if InRegion(sp, OS_STACK_START, OS_STACK_END) then OsStack
    else if InRegion(sp, TASK_RAM_START, TASK_RAM_END) then TaskRam
    else if InRegion(sp, heapStart, HEAP_END) then Heap
    else if InRegion(sp, RAMEND, (heapStart + 1) % 0x10000) then Init
    else Unknown
  }

  /**
   The region of every address. The task RAM begins above the OS stack, although
   TASK_RAM_END lies inside it; from 0x1000 on the start of the heap decides.
   */
  lemma RegionExact(a: Word, heapStart: Word)
    ensures 0 <= a <= 0x1FF <==> MemoryRegion(a, heapStart) == Registers
    ensures 0x200 <= a <= 0x204 <==> MemoryRegion(a, heapStart) == RegistersCanary
    ensures 0x205 <= a <= 0x3FF <==> MemoryRegion(a, heapStart) == OsStack
    ensures 0x400 <= a <= 0xFFF <==> MemoryRegion(a, heapStart) == TaskRam
    ensures 0x1000 <= a <= heapStart <==> MemoryRegion(a, heapStart) == Heap
    ensures 0x1000 <= a <= 0x21FF && heapStart < a <==> MemoryRegion(a, heapStart) == Init
    ensures 0x21FF < a && heapStart < a <==> MemoryRegion(a, heapStart) == Unknown
  {
    if heapStart == 0xFFFF {
      assert (heapStart + 1) % 0x10000 == 0;
    } else {
      assert (heapStart + 1) % 0x10000 == heapStart + 1;
    }
  }

  predicate CanariesIntact(mem: seq<Byte>) {
    CANARY_START < |mem| && forall a :: CANARY_END <= a <= CANARY_START ==> mem[a] == CANARY_VALUE
  }

  predicate BelongsToTask(adr: Word, b: nat)
    requires b < TASKS_MAX
  {
    Low(b) <= adr <= High(b)
  }

  /** assert_task_pointer_integrity; false stands for its halting branches. */
  predicate PointerIntegrity(mem: seq<Byte>, sp: Word, b: nat, heapStart: Word)
    requires b < TASKS_MAX
  {
    && MemoryRegion(sp, heapStart) == TaskRam
    && BelongsToTask(sp, b)
    && BelongsToTask((sp - FRAME_BYTES) % 0x10000, b)
    && CanariesIntact(mem)
    && !(sp < Low(b) || sp > High(b))
  }

  predicate Acceptable(sp: int, b: nat)
    requires b < TASKS_MAX
  {
    Low(b) + FRAME_BYTES <= sp <= High(b) && OS_STACK_START < sp
  }

  /** What the integrity check accepts, for every block and every stack pointer. */
  lemma PointerIntegrityExact(mem: seq<Byte>, sp: Word, b: nat, heapStart: Word)
    requires b < TASKS_MAX
    ensures PointerIntegrity(mem, sp, b, heapStart) <==> CanariesIntact(mem) && Acceptable(sp, b)
    ensures Acceptable(sp, b) <==> 848 + 649 * b + 36 <= sp <= 1496 + 649 * b && 0x400 <= sp
    ensures CanariesIntact(mem) <==>
              && |mem| > 0x204
              && mem[0x200] == 0x66 && mem[0x201] == 0x66 && mem[0x202] == 0x66 && mem[0x203] == 0x66
              && mem[0x204] == 0x66
  {
    hide MemoryRegion;
    RegionExact(sp, heapStart);
    if sp < FRAME_BYTES {
      assert (sp - FRAME_BYTES) % 0x10000 == sp - FRAME_BYTES + 0x10000;
    } else {
      assert (sp - FRAME_BYTES) % 0x10000 == sp - FRAME_BYTES;
    }
  }

  /**
   Stack isolation: every byte a full switch frame writes from an accepted SP,
   together with the one scratch byte below it, lies in block b and in no other.
   */
  lemma FrameStaysInBlock(mem: seq<Byte>, sp: Word, b: nat, heapStart: Word, a: int, c: nat)
    requires b < TASKS_MAX && c < TASKS_MAX && c != b
    requires PointerIntegrity(mem, sp, b, heapStart)
    requires sp - FRAME_BYTES <= a <= sp
    ensures Low(b) <= a <= High(b) && !(Low(c) <= a <= High(c))
  {
    PointerIntegrityExact(mem, sp, b, heapStart);
  }
}
