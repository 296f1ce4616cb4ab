/** The growing circular buffer of src/cirbuf.c, and why it acts as a map from sequence number to value. */
module CirBuf {
  import opened SeqArith
  import opened Wrappers

  datatype Val<+T> = Val(num: uint32, item: T)

  function Pow2(k: nat): (p: nat)
    ensures p >= 1
  {
    if k == 0 then 1 else 2 * Pow2(k - 1)
  }

  /** Bitwise `&` on unsigned numbers. */
  function BitAnd(x: nat, y: nat): nat {
    if x == 0 || y == 0 then 0
    else (if x % 2 == 1 && y % 2 == 1 then 1 else 0) + 2 * BitAnd(x / 2, y / 2)
  }

  /** The remainder of `x` modulo 2^k: the slot of key `x` in a buffer of 2^k slots. */
  function Low(x: nat, k: nat): (r: nat)
    ensures r < Pow2(k) && r <= x
    decreases x
  {
    if x < Pow2(k) then x else Low(x - Pow2(k), k)
  }

  lemma {:induction false} LowHalves(x: nat, k: nat)
    requires k > 0
    ensures Low(x, k) == x % 2 + 2 * Low(x / 2, k - 1)
    decreases x
  {
    if x >= Pow2(k) {
      LowHalves(x - Pow2(k), k);
      assert (x - Pow2(k)) / 2 == x / 2 - Pow2(k - 1);
    }
  }

  lemma {:induction false} MaskIsLow(x: nat, k: nat)
    ensures BitAnd(x, Pow2(k) - 1) == Low(x, k)
  {
    if k == 0 {
      LowOfOneSlot(x);
    } else {
      var m := Pow2(k) - 1;
      assert m % 2 == 1 && m / 2 == Pow2(k - 1) - 1;
      MaskIsLow(x / 2, k - 1);
      LowHalves(x, k);
    }
  }

  lemma {:induction false} LowOfOneSlot(x: nat)
    ensures Low(x, 0) == 0
  {
    if x > 0 {
      LowOfOneSlot(x - 1);
    }
  }

  lemma {:induction false} FullTurnKeepsLow(x: nat, m: nat, k: nat)
    requires k <= m
    ensures Low(x + Pow2(m), k) == Low(x, k)
    decreases m
  {
    if k < m {
      FullTurnKeepsLow(x, m - 1, k);
      FullTurnKeepsLow(x + Pow2(m - 1), m - 1, k);
    }
  }

  lemma {:induction false} LowOfLow(x: nat, j: nat, k: nat)
    requires j <= k
    ensures Low(Low(x, k), j) == Low(x, j)
    decreases x
  {
    if x >= Pow2(k) {
      LowOfLow(x - Pow2(k), j, k);
      FullTurnKeepsLow(x - Pow2(k), k, j);
    }
  }

  /** Keys apart in a small buffer stay apart in a larger one. */
  lemma StaysApart(x: nat, y: nat, j: nat, k: nat)
    requires j <= k && Low(x, k) == Low(y, k)
    ensures Low(x, j) == Low(y, j)
  {
    LowOfLow(x, j, k);
    LowOfLow(y, j, k);
  }

  lemma {:induction false} SharedSlotGap(x: nat, y: nat, k: nat)
    requires x < y && Low(x, k) == Low(y, k)
    ensures y - x >= Pow2(k)
    decreases x
  {
    if x >= Pow2(k) {
      SharedSlotGap(x - Pow2(k), y - Pow2(k), k);
    }
  }

  lemma {:induction false} PowMonotone(j: nat, k: nat)
    requires j <= k
    ensures Pow2(j) <= Pow2(k)
    ensures j < k ==> 2 * Pow2(j) <= Pow2(k)
  {
    if j < k {
      PowMonotone(j, k - 1);
    }
  }

  lemma Powers() returns (h: nat, m: nat)
    ensures h == 31 && Pow2(h) == TWO_31 && m == 32 && Pow2(m) == TWO_32
  {
    h, m := 31, 32;
    assert Pow2(8) == 256;
    assert Pow2(16) == 65536 by { assert Pow2(12) == 4096; }
    assert Pow2(24) == 0x100_0000 by { assert Pow2(20) == 0x10_0000; }
    assert Pow2(28) == 0x1000_0000;
    assert Pow2(31) == 0x8000_0000;
  }

  /** How far apart two keys are on the circle of 2^32 numbers. */
  function Distance(a: uint32, b: uint32): nat {
    var d := if a >= b then a - b else b - a;
    if d <= TWO_32 - d then d else TWO_32 - d
  }

  /** The number of slots bounds the circular distance of two keys that share one. */
  lemma CollisionDistance(k: nat, a: uint32, b: uint32)
    requires k <= 32 && a != b && Low(a, k) == Low(b, k)
    ensures k <= 31 && Pow2(k) <= Distance(a, b)
  {
    var lo, hi := if a < b then a else b, if a < b then b else a;
    SharedSlotGap(lo, hi, k);
    var h, m := Powers();
    FullTurnKeepsLow(lo, m, k);
    SharedSlotGap(hi, lo + TWO_32, k);
  }

  lemma HalfTurnSharesSlots(k: nat, a: uint32, b: uint32)
    requires k <= 31 && Distance(a, b) == TWO_31
    ensures Low(a, k) == Low(b, k)
  {
    var h, m := Powers();
    FullTurnKeepsLow(if a < b then a else b, h, k);
  }

  /** The value of the 32-bit `size` once it has been doubled to 2^k. */
  function SizeAt(k: nat): nat {
    if k == 32 then 0 else Pow2(k)
  }

  /** The doubling loop of `udx__cirbuf_set` from size 2^k on. */
  function GrownLog(k: nat, a: uint32, b: uint32): (g: nat)
    requires k <= 32
    ensures k <= g <= 32
    decreases 32 - k
  {
    if k == 32 || Low(a, k) != Low(b, k) then k else GrownLog(k + 1, a, b)
  }

  /** The doubling ends at a power of two that separates the keys and is at most twice their
      circular distance, except when they are exactly half a turn apart: then `size` overflows to zero. */
  lemma {:induction false} GrownLogBound(k: nat, a: uint32, b: uint32)
    requires k <= 31 && a != b && Low(a, k) == Low(b, k)
    ensures k < GrownLog(k, a, b) <= 32
    ensures Low(a, GrownLog(k, a, b)) != Low(b, GrownLog(k, a, b))
    ensures Pow2(GrownLog(k, a, b)) <= 2 * Distance(a, b)
    ensures SizeAt(GrownLog(k, a, b)) == 0 <==> Distance(a, b) == TWO_31
    decreases 31 - k
  {
    CollisionDistance(k, a, b);
    if Low(a, k + 1) == Low(b, k + 1) {
      CollisionDistance(k + 1, a, b);
      GrownLogBound(k + 1, a, b);
    } else {
      assert GrownLog(k, a, b) == k + 1;
      if k + 1 == 32 {
        var h, m := Powers();
      } else if Distance(a, b) == TWO_31 {
        HalfTurnSharesSlots(k + 1, a, b);
      }
    }
  }

  /** The failure the bound leaves: a key stored half a turn away makes the size overflow, from any size. */
  lemma HalfTurnOverflows(k: nat, a: uint32, b: uint32)
    requires k <= 31 && Distance(a, b) == TWO_31
    ensures SizeAt(GrownLog(k, a, b)) == 0
    ensures SizeAt(GrownLog(0, 0, 0x8000_0000)) == 0
  {
    HalfTurnSharesSlots(k, a, b);
    GrownLogBound(k, a, b);
    HalfTurnSharesSlots(0, 0, 0x8000_0000);
    GrownLogBound(0, 0, 0x8000_0000);
  }

  lemma DoubledInPlace(k: nat)
    requires k <= 31
    ensures 0 <= SizeAt(k) < TWO_32
    ensures U32(SizeAt(k) * 2) == SizeAt(k + 1)
    ensures U32(SizeAt(k + 1) - 1) == Pow2(k + 1) - 1
  {
    var h, m := Powers();
    PowMonotone(k, h);
  }

  /** A stored key half a turn away is met in the slot itself. */
  lemma HalfTurnMeets<T>(t: Table<T>, k: nat, num: uint32)
    requires k <= 31 && Slotted(t, k)
    ensures forall key :: key in Entries(t, k) && Distance(key, num) == TWO_31 ==>
              t[Low(num, k)].Some? && t[Low(num, k)].value.num == key
  {
    forall key | key in Entries(t, k) && Distance(key, num) == TWO_31
      ensures t[Low(num, k)].Some? && t[Low(num, k)].value.num == key
    {
      HalfTurnSharesSlots(k, key, num);
    }
  }

  type Table<T> = seq<Option<Val<T>>>

  ghost predicate Slotted<T>(t: Table<T>, k: nat) {
    && |t| == Pow2(k)
    && forall i :: 0 <= i < |t| && t[i].Some? ==> Low(t[i].value.num, k) == i
  }

  ghost predicate Has<T>(t: Table<T>, k: nat, num: uint32)
    requires |t| == Pow2(k)
  {
    t[Low(num, k)].Some? && t[Low(num, k)].value.num == num
  }

  /** The map a table of slots stands for. */
  ghost function Entries<T>(t: Table<T>, k: nat): map<uint32, Val<T>>
    requires |t| == Pow2(k)
  {
    map num: uint32 | 0 <= num < TWO_32 && Has(t, k, num) :: t[Low(num, k)].value
  }

  /** `after` holds `val` and the first `n` slots of `before`, each entry in its own slot, and nothing else. */
  ghost predicate Moved<T>(before: Table<T>, j: nat, n: nat, after: Table<T>, k: nat, val: Val<T>)
    requires n <= |before| == Pow2(j) && |after| == Pow2(k)
  {
    && after[Low(val.num, k)] == Some(val)
    && (forall i :: 0 <= i < n && before[i].Some? ==> after[Low(before[i].value.num, k)] == before[i])
    && (forall i :: 0 <= i < |after| && after[i].Some? ==> Low(after[i].value.num, k) == i)
    && (forall i :: 0 <= i < |after| && after[i].Some? && after[i].value != val ==>
          after[i] == before[Low(after[i].value.num, j)])
  }

  lemma MoveOne<T>(before: Table<T>, j: nat, n: nat, after: Table<T>, k: nat, val: Val<T>)
    requires j <= k && n < |before| && Slotted(before, j) && |after| == Pow2(k) && Moved(before, j, n, after, k, val)
    requires var v := before[Low(val.num, j)]; v.Some? && Low(v.value.num, k) != Low(val.num, k)
    ensures before[n].None? ==> Moved(before, j, n + 1, after, k, val)
    ensures before[n].Some? ==> Moved(before, j, n + 1, after[Low(before[n].value.num, k) := before[n]], k, val)
  {
    if before[n].Some? {
      var key := before[n].value.num;
      if Low(key, k) == Low(val.num, k) {
        StaysApart(key, val.num, j, k);
      }
      forall i | 0 <= i < n && before[i].Some?
        ensures Low(before[i].value.num, k) != Low(key, k)
      {
        if Low(before[i].value.num, k) == Low(key, k) {
          StaysApart(before[i].value.num, key, j, k);
        }
      }
    }
  }

  lemma MovedEntries<T>(before: Table<T>, j: nat, after: Table<T>, k: nat, val: Val<T>)
    requires Slotted(before, j) && |after| == Pow2(k) && Moved(before, j, |before|, after, k, val)
    requires !Has(before, j, val.num)
    ensures Slotted(after, k) && Entries(after, k) == Entries(before, j)[val.num := val]
  {
    forall s: uint32
      ensures Has(after, k, s) <==> Has(before, j, s) || s == val.num
      ensures Has(before, j, s) && s != val.num ==> after[Low(s, k)] == before[Low(s, j)]
    {
      if s != val.num && Has(after, k, s) {
        assert after[Low(s, k)] == before[Low(s, j)];
      }
    }
  }

  lemma UpdatedHas<T>(t: Table<T>, k: nat, num: uint32, v: Option<Val<T>>, s: uint32)
    requires Slotted(t, k) && (v.Some? ==> v.value.num == num)
    requires t[Low(num, k)].Some? ==> t[Low(num, k)].value.num == num
    ensures var u := t[Low(num, k) := v];
            && (Has(u, k, s) <==> if s == num then v.Some? else Has(t, k, s))
            && (Has(u, k, s) && s != num ==> u[Low(s, k)] == t[Low(s, k)])
  {
    if s != num && Has(t, k, s) {
      assert Low(s, k) != Low(num, k);
    }
  }

  lemma UpdatedEntries<T>(t: Table<T>, k: nat, num: uint32, v: Option<Val<T>>)
    requires Slotted(t, k) && (v.Some? ==> v.value.num == num)
    requires t[Low(num, k)].Some? ==> t[Low(num, k)].value.num == num
    ensures Slotted(t[Low(num, k) := v], k)
    ensures Entries(t[Low(num, k) := v], k)
         == if v.Some? then Entries(t, k)[num := v.value] else Entries(t, k) - {num}
  {
    var u := t[Low(num, k) := v];
    hide Low, Pow2;
    forall s: uint32
      ensures Has(u, k, s) <==> if s == num then v.Some? else Has(t, k, s)
      ensures Has(u, k, s) && s != num ==> u[Low(s, k)] == t[Low(s, k)]
    {
      UpdatedHas(t, k, num, v, s);
    }
  }

  /** Every key of the map lies less than `w` away from `num`. */
  ghost predicate KeysWithin<T>(m: map<uint32, Val<T>>, num: uint32, w: nat) {
    forall k :: k in m ==> Distance(k, num) < w
  }

  datatype Op<+T> = Put(val: Val<T>) | Drop(num: uint32)

  /** What a run of operations makes of a map. */
  ghost function After<T>(m: map<uint32, Val<T>>, ops: seq<Op<T>>): map<uint32, Val<T>>
    decreases |ops|
  {
    if ops == [] then m
    else
      var m := After(m, ops[..|ops| - 1]);
      match ops[|ops| - 1]
      case Put(val) => m[val.num := val]
      case Drop(num) => m - {num}
  }

  /** At every insertion of the run the keys present lie within the circular window `w` of the new one. */
  ghost predicate Windowed<T>(m: map<uint32, Val<T>>, ops: seq<Op<T>>, w: nat) {
    forall i :: 0 <= i < |ops| && ops[i].Put? ==> KeysWithin(After(m, ops[..i]), ops[i].val.num, w)
  }

  class CircularBuffer<T> {
    var size: uint32
    var mask: uint32
    var values: array<Option<Val<T>>>
    ghost var log: nat

    ghost predicate Sized()
      reads this
    {
      log <= 32 && size == SizeAt(log) && mask == Pow2(log) - 1
    }

    ghost predicate Valid()
      reads this, values
    {
      Sized() && log <= 31 && Slotted(values[..], log)
    }

    ghost function Contents(): map<uint32, Val<T>>
      reads this, values
      requires Valid()
    {
      Entries(values[..], log)
    }

    /** `udx__cirbuf_init`: the size must be a power of two. */
    constructor (initialSize: uint32, ghost k: nat)
      requires k <= 31 && initialSize == Pow2(k)
      ensures Valid() && fresh(values)
      ensures Contents() == map[] && size == initialSize
    {
      size := initialSize;
      mask := initialSize - 1;
      values := new Option<Val<T>>[initialSize](_ => None);
      log := k;
    }

    /** `seq & c->mask`. */
    method SlotOf(num: uint32) returns (slot: nat)
      requires Sized()
      ensures slot == Low(num, log)
    {
      MaskIsLow(num, log);
      slot := BitAnd(num, mask);
    }

    /** `udx__cirbuf_set`. Nothing but the new value's own entry changes, however often the buffer
        grows, and it grows only as far as the window of keys in use explains.
        It fails in exactly one case: a key is stored exactly half a turn away. Then the size has overflowed to
        zero (see GrownLogBound), an empty table is allocated, and what writing into it does is not defined. */
    method Set(val: Val<T>) returns (ok: bool)
      requires Valid()
      modifies this, values
      ensures ok <==> forall k :: k in old(Contents()) ==> Distance(k, val.num) != TWO_31
      ensures !ok ==> size == 0
      ensures ok ==> Valid() && Contents() == old(Contents())[val.num := val] && size >= old(size)
      ensures values == old(values) || fresh(values)
      ensures ok ==> forall w: nat :: KeysWithin(old(Contents()), val.num, w) ==>
                size == old(size) || size <= 2 * (w - 1)
    {
      var slot := SlotOf(val.num);
      var v := values[slot];
      ghost var before, k := values[..], log;
      HalfTurnMeets(before, k, val.num);
      if v.None? || v.value.num == val.num {
        UpdatedEntries(before, k, val.num, Some(val));
        values[slot] := Some(val);
        assert values[..] == before[Low(val.num, k) := Some(val)];
        return true;
      }
      var old_size, old_values := size, values;
      assert Has(before, k, v.value.num) && v.value.num in Contents();
      GrownLogBound(k, v.value.num, val.num);
      DoubleUntilApart(v.value.num, val.num);
      if size == 0 {
        return false;
      }
      PowMonotone(k, log);
      Rehash(old_values, old_size, val, k);
      assert before == old_values[..];
      MovedEntries(before, k, values[..], log, val);
      ok := true;
    }

    method Double()
      requires Sized() && log <= 31
      modifies this`size, this`mask, this`log
      ensures Sized() && log == old(log) + 1
    {
      DoubledInPlace(log);
      size := U32(size * 2);
      mask := U32(size - 1);
      log := log + 1;
    }

    /** The doubling loop. */
    method DoubleUntilApart(other: uint32, num: uint32)
      requires Sized() && log <= 31 && Low(other, GrownLog(log, other, num)) != Low(num, GrownLog(log, other, num))
      modifies this`size, this`mask, this`log
      ensures Sized() && log == GrownLog(old(log), other, num)
    {
      var i := SlotOf(other);
      var j := SlotOf(num);
      while i == j
        invariant Sized() && log <= GrownLog(log, other, num) == GrownLog(old(log), other, num)
        invariant i == Low(other, log) && j == Low(num, log)
        decreases 32 - log
      {
        Double();
        i := SlotOf(other);
        j := SlotOf(num);
      }
    }

    /** The allocation and the copy loop at the end of `udx__cirbuf_set`. */
    method Rehash(old_values: array<Option<Val<T>>>, old_size: uint32, val: Val<T>, ghost k: nat)
      requires Sized() && log <= 31 && old_values == values && old_values.Length == old_size
      requires Slotted(old_values[..], k) && k < log
      requires var v := old_values[Low(val.num, k)]; v.Some? && Low(v.value.num, log) != Low(val.num, log)
      modifies this`values
      ensures fresh(values) && values.Length == size
      ensures Moved(old_values[..], k, old_size, values[..], log, val)
    {
      values := new Option<Val<T>>[size](_ => None);
      var slot := SlotOf(val.num);
      values[slot] := Some(val);
      var i := 0;
      while i < old_size
        invariant 0 <= i <= old_size
        invariant fresh(values) && values.Length == size
        invariant Moved(old_values[..], k, i, values[..], log, val)
      {
        var v := old_values[i];
        MoveOne(old_values[..], k, i, values[..], log, val);
        if v.Some? {
          slot := SlotOf(v.value.num);
          ghost var after := values[..];
          values[slot] := v;
          assert values[..] == after[slot := v];
        }
        i := i + 1;
      }
    }

    method Get(num: uint32) returns (v: Option<Val<T>>)
      requires Valid()
      ensures v == if num in Contents() then Some(Contents()[num]) else None
    {
      var slot := SlotOf(num);
      v := values[slot];
      if v.None? || v.value.num != num {
        return None;
      }
    }

    method Remove(num: uint32) returns (v: Option<Val<T>>)
      requires Valid()
      modifies values
      ensures Valid()
      ensures v == if num in old(Contents()) then Some(old(Contents())[num]) else None
      ensures Contents() == old(Contents()) - {num}
    {
      var slot := SlotOf(num);
      v := values[slot];
      if v.None? || v.value.num != num {
        return None;
      }
      ghost var before := values[..];
      UpdatedEntries(before, log, num, None);
      values[slot] := None;
      assert values[..] == before[Low(num, log) := None];
    }

    /** A whole run: the buffer stays the map, and never outgrows its first size and the window of its keys. */
    method Replay(ops: seq<Op<T>>, ghost w: nat)
      requires Valid() && w <= TWO_31 && Windowed(Contents(), ops, w)
      modifies this, values
      ensures Valid() && Contents() == After(old(Contents()), ops)
      ensures size <= old(size) || size <= 2 * (w - 1)
    {
      ghost var m := Contents();
      var i := 0;
      assert ops[..0] == [];
      while i < |ops|
        invariant 0 <= i <= |ops| && Valid() && Contents() == After(m, ops[..i])
        invariant values == old(values) || fresh(values)
        invariant size <= old(size) || size <= 2 * (w - 1)
        decreases |ops| - i
      {
        assert ops[..i + 1][..i] == ops[..i];
        match ops[i] {
          case Put(val) => var ok := Set(val); assert ok;
          case Drop(num) => var _ := Remove(num);
        }
        i := i + 1;
      }
      assert ops[..|ops|] == ops;
    }
  }
}
