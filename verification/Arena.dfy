/** The bump arena (src/arena.rs:13-90). */
module Arenas {
  import opened Prelude
  import opened Arith

  const MAX_BYTES: nat := 0x4000_0000
  const DEFAULT_ALIGN: nat := 16

  datatype ArenaError = ZeroSize | BadAlign(align: nat) | OverCap

  /** A granted stretch of the buffer. */
  datatype Region = Region(base: nat, size: nat, align: nat)

  /** Size of the buffer, bytes in use, and what was granted since the last reset. */
  datatype State = State(capacity: nat, cursor: nat, granted: seq<Region>)

  datatype Op = Alloc(size: nat, align: nat) | Reset

  predicate IsPow2(n: nat) {
    n == 1 || (n > 0 && n % 2 == 0 && IsPow2(n / 2))
  }

  /** `(x + align - 1) & !(align - 1)`, for an `align` that is a power of two. */
  function AlignUp(x: nat, align: nat): nat
    requires align > 0
  {
    (x + align - 1) / align * align
  }

  /** Twice as much until it is enough. */
  function Grown(cap: nat, end: nat): nat
    requires cap > 0
    decreases end - cap
  {
    if cap < end then Grown(2 * cap, end) else cap
  }

  function Effective(align: nat): nat {
    if align == 0 then DEFAULT_ALIGN else align
  }

  /** What `alloc` answers: the offset, or why not. */
  function Answer(s: State, size: nat, align: nat): Result<nat, ArenaError> {
    if size == 0 then Err(ZeroSize)
    else if !IsPow2(Effective(align)) then Err(BadAlign(align % TWO32))
    else if AlignUp(s.cursor, Effective(align)) + size > MAX_BYTES then Err(OverCap)
    else Ok(AlignUp(s.cursor, Effective(align)))
  }

  function Apply(s: State, op: Op): State {
    match op
    case Reset => State(s.capacity, 0, [])
    case Alloc(size, align) =>
      match Answer(s, size, align)
      case Err(_) => s
      case Ok(base) =>
        State(if base + size > s.capacity then Grown(if s.capacity > 64 then s.capacity else 64, base + size)
          else s.capacity,
              base + size,
              s.granted + [Region(base, size, Effective(align))])
  }

  function Run(s: State, ops: seq<Op>): State
    decreases |ops|
  {
    if ops == [] then s else Run(Apply(s, ops[0]), ops[1..])
  }

  // ---------------------------------------------------------------------
  // What every run keeps
  // ---------------------------------------------------------------------

  /** 64 doubled some number of times, and at most the limit. */
  predicate Capacity(c: nat) {
    exists k: nat :: k <= 24 && c == 64 * Pow2(k)
  }

  ghost predicate Inv(s: State) {
    && (s.capacity == 0 || Capacity(s.capacity))
    && s.cursor <= s.capacity
    && (forall i :: 0 <= i < |s.granted| ==>
          s.granted[i].size > 0 && s.granted[i].align > 0 && s.granted[i].base % s.granted[i].align == 0
          && s.granted[i].base + s.granted[i].size <= s.cursor)
    && (forall i, j :: 0 <= i < j < |s.granted| ==> s.granted[i].base + s.granted[i].size <= s.granted[j].base)
  }

  lemma {:induction false} Pow2Splits(a: nat, b: nat)
    ensures Pow2(a + b) == Pow2(a) * Pow2(b)
    decreases b
  {
    if b > 0 {
      Pow2Splits(a, b - 1);
      assert Pow2(a + b) == 2 * Pow2(a + (b - 1));
    }
  }

  lemma Pow2Limit()
    ensures 64 * Pow2(24) == MAX_BYTES
  {
    assert Pow2(4) == 16;
    Pow2Splits(4, 4);
    Pow2Splits(8, 8);
    Pow2Splits(16, 8);
  }

  lemma {:induction false} Pow2Mono(a: nat, b: nat)
    requires a <= b
    ensures 0 < Pow2(a) <= Pow2(b)
    decreases b
  {
    if a < b {
      Pow2Mono(a, b - 1);
    } else if b > 0 {
      Pow2Mono(a - 1, b - 1);
    }
  }

  lemma CapacityBound(c: nat)
    requires Capacity(c)
    ensures 64 <= c <= MAX_BYTES && (c < MAX_BYTES ==> Capacity(2 * c))
  {
    var k: nat :| k <= 24 && c == 64 * Pow2(k);
    Pow2Limit();
    Pow2Mono(k, 24);
    Pow2Mono(0, k);
    if c < MAX_BYTES {
      assert 2 * c == 64 * Pow2(k + 1);
    }
  }

  /** Doubling stops at the first capacity that is enough, never past the limit. */
  lemma {:induction false} GrownIs(cap: nat, end: nat)
    requires cap > 0 && Capacity(cap) && end <= MAX_BYTES
    ensures end <= Grown(cap, end) && Capacity(Grown(cap, end))
    ensures Grown(cap, end) == cap || Grown(cap, end) < 2 * end
    decreases end - cap
  {
    CapacityBound(cap);
    if cap < end {
      GrownIs(2 * cap, end);
    }
  }

  /** The least multiple of `align` that is not below `x`. */
  lemma AlignUpIs(x: nat, align: nat)
    requires align > 0
    ensures AlignUp(x, align) % align == 0 && x <= AlignUp(x, align) < x + align
    ensures forall m :: m % align == 0 && m >= x ==> m >= AlignUp(x, align)
  {
    var q := (x + align - 1) / align;
    DivModUnique(q * align, align, q, 0);
    forall m | m % align == 0 && m >= x ensures m >= AlignUp(x, align) {
      var p := m / align;
      if p < q {
        MulMono(p, q - 1, align);
        MulAdd(q, 1, align);
      } else {
        MulMono(q, p, align);
      }
    }
  }

  lemma InvApply(s: State, op: Op)
    requires Inv(s)
    ensures Inv(Apply(s, op)) && Apply(s, op).capacity >= s.capacity
  {
    if op.Alloc? && Answer(s, op.size, op.align).Ok? {
      var a := Effective(op.align);
      AlignUpIs(s.cursor, a);
      assert 64 == 64 * Pow2(0);
      var cap := if s.capacity > 64 then s.capacity else 64;
      assert Capacity(cap);
      GrownIs(cap, AlignUp(s.cursor, a) + op.size);
      CapacityBound(cap);
    }
  }

  /**
    After any sequence of allocations and resets the granted regions are disjoint, in
    increasing order, aligned and inside the buffer, whose size is 0 or 64 * 2^k and at
    most 2^30; the buffer never shrinks.
  */
  lemma {:induction false} InvRun(s: State, ops: seq<Op>)
    requires Inv(s)
    ensures Inv(Run(s, ops)) && Run(s, ops).capacity >= s.capacity
    decreases |ops|
  {
    if ops != [] {
      InvApply(s, ops[0]);
      InvRun(Apply(s, ops[0]), ops[1..]);
    }
  }

  // ---------------------------------------------------------------------
  // The arena
  // ---------------------------------------------------------------------

  class Arena {
    var buf: seq<Byte>
    var cursor: nat
    ghost var view: State

    ghost predicate Valid()
      reads this
    {
      view.capacity == |buf| && view.cursor == cursor && Inv(view)
    }

    constructor ()
      ensures Valid() && view == State(0, 0, []) && buf == []
    {
      buf, cursor, view := [], 0, State(0, 0, []);
    }

    /** `alloc`. The first checked addition cannot overflow and the second only past the limit. */
    method AllocBytes(size: nat, align: nat) returns (r: Result<nat, ArenaError>)
      requires Valid()
      modifies this
      ensures Valid()
      ensures r == Answer(old(view), size, align) && view == Apply(old(view), Alloc(size, align))
      ensures |buf| >= |old(buf)| && buf[..|old(buf)|] == old(buf)
      ensures forall i :: |old(buf)| <= i < |buf| ==> buf[i] == 0
    {
      hide Capacity, IsPow2, AlignUp, Inv;
      ghost var after := Apply(view, Alloc(size, align));
      InvApply(view, Alloc(size, align));
      if size == 0 {
        return Err(ZeroSize);
      }
      var a := if align == 0 then DEFAULT_ALIGN else align;
      if !IsPow2(a) {
        return Err(BadAlign(align % TWO32));
      }
      var aligned := AlignUp(cursor, a);
      var end := aligned + size;
      if end > MAX_BYTES {
        return Err(OverCap);
      }
      if end > |buf| {
        var cap := if |buf| > 64 then |buf| else 64;
        ghost var first := cap;
        while cap < end
          invariant 0 < cap <= 2 * MAX_BYTES && Grown(cap, end) == Grown(first, end)
        {
          // saturating_mul cannot saturate here
          cap := cap * 2;
        }
        buf := buf + seq(cap - |buf|, _ => 0);
      }
      cursor := end;
      view := after;
      r := Ok(aligned);
    }

    /** `reset`: the buffer stays. */
    method ResetCursor()
      requires Valid()
      modifies this
      ensures Valid() && buf == old(buf) && view == Apply(old(view), Reset)
    {
      InvApply(view, Reset);
      cursor, view := 0, Apply(view, Reset);
    }
  }

  // ---------------------------------------------------------------------
  // What an allocation answers
  // ---------------------------------------------------------------------

  lemma {:induction false} PowersOfTwo(n: nat)
    ensures IsPow2(n) <==> exists k: nat :: n == Pow2(k)
  {
    if IsPow2(n) {
      if n == 1 {
        assert n == Pow2(0);
      } else {
        PowersOfTwo(n / 2);
        var k: nat :| n / 2 == Pow2(k);
        assert n == Pow2(k + 1);
      }
    }
    if k: nat :| n == Pow2(k) {
      Pow2Is(k);
    }
  }

  lemma {:induction false} Pow2Is(k: nat)
    ensures IsPow2(Pow2(k)) && Pow2(k) > 0
  {
    if k > 0 {
      Pow2Is(k - 1);
    }
  }

  /** `base` is the least multiple of `align` from `from` on. */
  ghost predicate LeastFrom(base: nat, from: nat, align: nat)
    requires align > 0
  {
    base % align == 0 && from <= base && forall m :: m % align == 0 && m >= from ==> m >= base
  }

  ghost predicate NoRoom(cursor: nat, size: nat, align: nat)
    requires align > 0
  {
    forall base: nat :: LeastFrom(base, cursor, align) ==> base + size > 0x4000_0000
  }

  /**
    An allocation is refused for size 0, then for an alignment that is not a power of two,
    then when the least aligned offset leaves no room below 2^30; otherwise it gets that
    offset, which nothing granted before reaches. An alignment of 0 means 16.
  */
  lemma AllocGrants(s: State, size: nat, align: nat)
    ensures var r, a := Apply(s, Alloc(size, align)), if align == 0 then 16 else align;
            match Answer(s, size, align)
            case Ok(base) =>
              && size > 0 && IsPow2(a) && LeastFrom(base, s.cursor, a) && base + size <= 0x4000_0000
              && r.cursor == base + size && r.granted == s.granted + [Region(base, size, a)]
              && (base + size <= s.capacity ==> r.capacity == s.capacity)
            case Err(e) =>
              && r == s
              && (e == ZeroSize <==> size == 0)
              && (e.BadAlign? <==> size > 0 && !IsPow2(a))
              && (e == OverCap ==> size > 0 && IsPow2(a) && NoRoom(s.cursor, size, a))
  {
    hide IsPow2, Grown, AlignUp;
    var a := if align == 0 then 16 else align;
    AlignUpIs(s.cursor, a);
  }
}
