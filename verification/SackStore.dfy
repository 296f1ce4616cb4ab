/** The sack blocks of src/udx.c as values: what the blocks of a stream hold together, and how appending a
    payload, merging two blocks and taking the first one out change that. */
module SackStore {
  import opened SeqArith
  import opened Receive
  import opened SackLinks

  /** Where each block starts and stops, in true numbers counted from `base`, and the payloads it holds. */
  datatype Store = Store(base: int, blocks: set<Block>, key: map<Block, int>, stop: map<Block, int>, packs: map<Block, seq<Seg>>) {

    ghost function Key(b: Block): int { if b in key then key[b] else 0 }
    ghost function Stop(b: Block): int { if b in stop then stop[b] else 0 }
    ghost function Packs(b: Block): seq<Seg> { if b in packs then packs[b] else [] }

    ghost predicate Spans(b: Block, k: int) {
      Key(b) <= k < Stop(b)
    }

    /** Some block covers the number `k`. */
    ghost predicate Covers(k: int) {
      exists b :: b in blocks && Spans(b, k)
    }

    /** No block covers the number `k` or stops at it. */
    ghost predicate Beside(k: int) {
      forall b :: b in blocks ==> k < Key(b) || Stop(b) < k
    }

    /** Two blocks leave a gap between them; only after `open` may the next one begin at once. */
    ghost predicate Apart(a: Block, b: Block, open: Block?) {
      Stop(a) < Key(b) || Stop(b) < Key(a) || (a == open && Stop(a) == Key(b)) || (b == open && Stop(b) == Key(a))
    }

    /** Each block holds one payload for every number from its start up to its stop, at least one, and no
        two blocks touch, except `open` and the one after it. */
    ghost predicate Sound(open: Block?) {
      && (forall b {:trigger b in blocks} :: b in blocks ==> Key(b) < Stop(b) && |Packs(b)| == Stop(b) - Key(b))
      && (forall a, b :: a in blocks && b in blocks && a != b ==> Apart(a, b, open))
    }

    /** Payload `i` of `b` belongs to the number `i` after its start. */
    ghost predicate HoldsAt(held: map<nat, Seg>, b: Block, i: int) {
      0 <= i < |Packs(b)| ==> Key(b) - base + i in held && held[Key(b) - base + i] == Packs(b)[i]
    }

    /** Together the blocks hold exactly `held`. */
    ghost predicate Holds(held: map<nat, Seg>) {
      && (forall b, i :: b in blocks ==> HoldsAt(held, b, i))
      && (forall m: nat :: m in held ==> Covers(base + m))
    }

    /** All numbers lie from `lo` to `top`. */
    ghost predicate Bounded(lo: int, top: int) {
      forall b :: b in blocks ==> lo <= Key(b) && Stop(b) <= top
    }

    /** The blocks are sound, hold exactly `held`, and lie between the bounds. */
    ghost predicate Full(open: Block?, held: map<nat, Seg>, lo: int, top: int) {
      Sound(open) && Holds(held) && Bounded(lo, top) && base <= lo
    }

    /** A block more, still empty. */
    ghost function Opened(b: Block, k: int): Store {
      this.(blocks := blocks + {b}, key := key[b := k], stop := stop[b := k], packs := packs[b := []])
    }

    /** A payload more at the end of `b`. */
    ghost function Appended(b: Block, s: Seg): Store {
      this.(stop := stop[b := Stop(b) + 1], packs := packs[b := Packs(b) + [s]])
    }

    /** `c` joined to the end of `b`. */
    ghost function Merged(b: Block, c: Block): Store {
      this.(blocks := blocks - {c}, stop := stop[b := Stop(c)], packs := packs[b := Packs(b) + Packs(c)])
    }

    ghost function Without(b: Block): Store {
      this.(blocks := blocks - {b})
    }

    /** A place for the number `k`: a block that stops there, or one new and empty there beside all others. */
    ghost predicate Place(b: Block, k: int) {
      && b in blocks && Stop(b) == k && |Packs(b)| == k - Key(b)
      && (forall a :: a in blocks && a != b ==> Stop(a) < Key(b) || k < Key(a))
      && (forall a :: a in blocks && a != b ==> Key(a) < Stop(a) && |Packs(a)| == Stop(a) - Key(a))
      && (forall a, c :: a in blocks && c in blocks && a != b && c != b && a != c ==> Apart(a, c, null))
    }
  }

  ghost predicate IsHeld(held: map<nat, Seg>, base: int, k: int) {
    k - base in held
  }

  /** `held` with a payload for the number `k` more. */
  ghost function With(held: map<nat, Seg>, base: int, k: int, s: Seg): map<nat, Seg> {
    if k >= base then held[k - base := s] else held
  }

  /** The block that covers a number held. */
  lemma CoverOf(st: Store, held: map<nat, Seg>, m: nat) returns (a: Block)
    requires st.Holds(held) && m in held
    ensures a in st.blocks && st.Spans(a, st.base + m)
  {
    assert st.Covers(st.base + m);
    a :| a in st.blocks && st.Spans(a, st.base + m);
  }

  lemma CoveredHeld(st: Store, held: map<nat, Seg>, b: Block, k: int, lo: int, top: int)
    requires st.Full(null, held, lo, top) && b in st.blocks && st.Spans(b, k)
    ensures IsHeld(held, st.base, k)
  {
    assert st.HoldsAt(held, b, k - st.Key(b));
  }

  lemma Widen(st: Store, open: Block?, held: map<nat, Seg>, lo: int, top: int, lo': int, top': int)
    requires st.Full(open, held, lo, top) && st.base <= lo' <= lo && top <= top'
    ensures st.Full(open, held, lo', top')
  {
  }

  // ---------- a payload more ----------

  lemma OldPlace(st: Store, held: map<nat, Seg>, b: Block, lo: int, top: int)
    requires st.Full(null, held, lo, top) && b in st.blocks
    ensures st.Place(b, st.Stop(b))
  {
    forall a | a in st.blocks && a != b
      ensures st.Stop(a) < st.Key(b) || st.Stop(b) < st.Key(a)
    {
      assert st.Apart(a, b, null);
    }
  }

  lemma NewPlace(st: Store, held: map<nat, Seg>, b: Block, k: int, lo: int, top: int)
    requires st.Full(null, held, lo, top) && b !in st.blocks && st.Beside(k) && lo <= k <= top
    ensures st.Opened(b, k).Place(b, k) && st.Opened(b, k).Holds(held) && st.Opened(b, k).Bounded(lo, top)
    ensures st.Opened(b, k).base == st.base
  {
    var t := st.Opened(b, k);
    forall a, c | a in t.blocks && c in t.blocks && a != b && c != b && a != c
      ensures t.Apart(a, c, null)
    {
      assert st.Apart(a, c, null);
    }
    NewHolds(st, held, b, k);
  }

  lemma NewHolds(st: Store, held: map<nat, Seg>, b: Block, k: int)
    requires st.Holds(held) && b !in st.blocks
    ensures st.Opened(b, k).Holds(held)
  {
    var t := st.Opened(b, k);
    forall m: nat | m in held
      ensures t.Covers(t.base + m)
    {
      var a := CoverOf(st, held, m);
      assert t.Spans(a, t.base + m);
    }
    forall a, i | a in t.blocks
      ensures t.HoldsAt(held, a, i)
    {
      assert a != b ==> st.HoldsAt(held, a, i);
    }
  }

  lemma Free(st: Store, held: map<nat, Seg>, b: Block, k: int)
    requires st.Place(b, k) && st.Holds(held) && k >= st.base
    ensures !IsHeld(held, st.base, k)
  {
    assert !st.Covers(st.base + (k - st.base));
  }

  lemma AppendSound(st: Store, b: Block, k: int, s: Seg)
    requires st.Place(b, k)
    ensures st.Appended(b, s).Sound(b)
  {
    var t := st.Appended(b, s);
    forall a, c | a in t.blocks && c in t.blocks && a != c
      ensures t.Apart(a, c, b)
    {
      assert a != b && c != b ==> st.Apart(a, c, null);
    }
  }

  lemma AppendHolds(st: Store, held: map<nat, Seg>, b: Block, k: int, s: Seg)
    requires st.Place(b, k) && st.Holds(held) && k >= st.base
    ensures st.Appended(b, s).Holds(With(held, st.base, k, s))
  {
    var t, held' := st.Appended(b, s), With(held, st.base, k, s);
    Free(st, held, b, k);
    forall m: nat | m in held'
      ensures t.Covers(t.base + m)
    {
      var a := b;
      if m != k - st.base {
        a := CoverOf(st, held, m);
      }
      assert t.Spans(a, t.base + m);
    }
    forall a, i | a in t.blocks
      ensures t.HoldsAt(held', a, i)
    {
      AppendHoldsAt(st, held, b, k, s, a, i);
    }
  }

  lemma AppendHoldsAt(st: Store, held: map<nat, Seg>, b: Block, k: int, s: Seg, a: Block, i: int)
    requires st.Place(b, k) && st.HoldsAt(held, a, i) && k >= st.base && !IsHeld(held, st.base, k) && a in st.blocks
    ensures st.Appended(b, s).HoldsAt(With(held, st.base, k, s), a, i)
  {
  }

  /** A payload appended in its place. */
  lemma Append(st: Store, held: map<nat, Seg>, b: Block, k: int, s: Seg, lo: int, top: int)
    requires st.Place(b, k) && st.Holds(held) && st.Bounded(lo, top) && st.base <= lo <= k < top
    ensures !IsHeld(held, st.base, k)
    ensures var t := st.Appended(b, s); b in t.blocks && t.base == st.base && t.Full(b, With(held, st.base, k, s), lo, top)
  {
    Free(st, held, b, k);
    AppendSound(st, b, k, s);
    AppendHolds(st, held, b, k, s);
  }

  // ---------- merging ----------

  lemma MergeSound(st: Store, b: Block, c: Block)
    requires st.Sound(b) && b in st.blocks && c in st.blocks && b != c && st.Stop(b) == st.Key(c)
    ensures st.Merged(b, c).Sound(null)
  {
    var t := st.Merged(b, c);
    forall a, d | a in t.blocks && d in t.blocks && a != d
      ensures t.Apart(a, d, null)
    {
      assert st.Apart(a, d, b);
      assert a != b ==> st.Apart(a, b, b) && st.Apart(a, c, b);
      assert d != b ==> st.Apart(b, d, b) && st.Apart(c, d, b);
    }
  }

  lemma MergeHolds(st: Store, held: map<nat, Seg>, b: Block, c: Block)
    requires st.Sound(b) && st.Holds(held) && b in st.blocks && c in st.blocks && b != c && st.Stop(b) == st.Key(c)
    ensures st.Merged(b, c).Holds(held)
  {
    var t := st.Merged(b, c);
    forall m: nat | m in held
      ensures t.Covers(t.base + m)
    {
      var a := CoverOf(st, held, m);
      var d: Block := if a == c then b else a;
      assert t.Spans(d, t.base + m);
    }
    forall a, i | a in t.blocks
      ensures t.HoldsAt(held, a, i)
    {
      assert st.HoldsAt(held, a, i) && st.HoldsAt(held, c, i - |st.Packs(b)|);
      MergeHoldsAt(st, held, b, c, a, i);
    }
  }

  lemma MergeHoldsAt(st: Store, held: map<nat, Seg>, b: Block, c: Block, a: Block, i: int)
    requires |st.Packs(b)| == st.Stop(b) - st.Key(b) && st.Stop(b) == st.Key(c)
    requires st.HoldsAt(held, a, i) && st.HoldsAt(held, c, i - |st.Packs(b)|)
    ensures st.Merged(b, c).HoldsAt(held, a, i)
  {
  }

  /** The block that begins where `b` stops, joined to it. */
  lemma Merge(st: Store, held: map<nat, Seg>, b: Block, c: Block, lo: int, top: int)
    requires st.Full(b, held, lo, top) && b in st.blocks && c in st.blocks && b != c && st.Stop(b) == st.Key(c)
    ensures st.Merged(b, c).Full(null, held, lo, top) && st.Merged(b, c).base == st.base
  {
    MergeSound(st, b, c);
    MergeHolds(st, held, b, c);
  }

  /** No block begins where `b` stops. */
  lemma NoMerge(st: Store, held: map<nat, Seg>, b: Block, lo: int, top: int)
    requires st.Full(b, held, lo, top) && b in st.blocks
    requires forall n :: n in st.blocks ==> st.Key(n) != st.Stop(b)
    ensures st.Full(null, held, lo, top)
  {
    forall a, d | a in st.blocks && d in st.blocks && a != d
      ensures st.Apart(a, d, null)
    {
      assert st.Apart(a, d, b);
    }
  }

  // ---------- taking the first block out ----------

  /** The payloads of one block, by number. */
  ghost function Run(from: int, packs: seq<Seg>): map<nat, Seg> {
    map m: nat {:trigger packs[m - from]} | from <= m < from + |packs| :: packs[m - from]
  }

  /** What the other blocks hold. */
  ghost function Rest(held: map<nat, Seg>, from: int, to: int): map<nat, Seg> {
    map m | m in held && !(from <= m < to) :: held[m]
  }

  lemma TakeHolds(st: Store, held: map<nat, Seg>, b: Block)
    requires st.Sound(null) && st.Holds(held) && b in st.blocks
    ensures st.Without(b).Holds(Rest(held, st.Key(b) - st.base, st.Stop(b) - st.base))
  {
    var t, rest := st.Without(b), Rest(held, st.Key(b) - st.base, st.Stop(b) - st.base);
    forall m: nat | m in rest
      ensures t.Covers(t.base + m)
    {
      var a := CoverOf(st, held, m);
      assert t.Spans(a, t.base + m);
    }
    forall a, i | a in t.blocks
      ensures t.HoldsAt(rest, a, i)
    {
      assert st.HoldsAt(held, a, i);
      assert st.Apart(a, b, null);
    }
  }

  /** The first block leaves: what it held is a run, what the others hold lies beyond a gap. */
  lemma Take(st: Store, held: map<nat, Seg>, b: Block, lo: int, top: int)
    requires st.Full(null, held, lo, top) && b in st.blocks && forall n :: n in st.blocks ==> st.Key(b) <= st.Key(n)
    ensures var rest := Rest(held, st.Key(b) - st.base, st.Stop(b) - st.base);
            && st.Without(b).Full(null, rest, st.Stop(b) + 1, top) && held == rest + Run(st.Key(b) - st.base, st.Packs(b))
  {
    var from, rest := st.Key(b) - st.base, Rest(held, st.Key(b) - st.base, st.Stop(b) - st.base);
    TakeHolds(st, held, b);
    forall a | a in st.blocks && a != b
      ensures st.Stop(b) < st.Key(a)
    {
      assert st.Apart(a, b, null);
    }
    forall a, c | a in st.blocks - {b} && c in st.blocks - {b} && a != c
      ensures st.Without(b).Apart(a, c, null)
    {
      assert st.Apart(a, c, null);
    }
    TakeSplits(st, held, b);
  }

  lemma TakeSplits(st: Store, held: map<nat, Seg>, b: Block)
    requires st.Holds(held) && b in st.blocks && |st.Packs(b)| == st.Stop(b) - st.Key(b)
    requires st.base <= st.Key(b)
    ensures held == Rest(held, st.Key(b) - st.base, st.Stop(b) - st.base) + Run(st.Key(b) - st.base, st.Packs(b))
  {
    var from := st.Key(b) - st.base;
    forall m: nat | from <= m < from + |st.Packs(b)|
      ensures m in held && held[m] == st.Packs(b)[m - from]
    {
      assert st.HoldsAt(held, b, m - from);
    }
  }

  /** Nothing is held below the bound; no block begins on it once the first one does not. */
  lemma NothingBelow(st: Store, held: map<nat, Seg>, lo: int, top: int, m: nat)
    requires st.Full(null, held, lo, top) && st.base + m < lo
    ensures m !in held
  {
    assert !st.Covers(st.base + m);
  }

  lemma Raise(st: Store, held: map<nat, Seg>, lo: int, top: int)
    requires st.Full(null, held, lo, top) && forall b :: b in st.blocks ==> st.Key(b) != lo
    ensures st.Full(null, held, lo + 1, top)
  {
  }
}
