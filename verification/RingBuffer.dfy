/** The bounded ring of `plugin/src/transport/ring_buffer.h`, with one thread running at a time.
    `RingProtocol` models the same code with its two threads interleaved. */
module RingBuffer {
  import opened Bits

  // ----- capacity rounding -----

  /** The value of the local `c` after n turns of the shift loop. */
  function Shifted(n: nat): nat {
    if n == 0 then 1 else (2 * Shifted(n - 1)) % WORD
  }

  /** c is the least power of two not below v. */
  ghost predicate LeastPow2AtLeast(c: nat, v: nat) {
    && (exists k: nat :: c == Pow2(k))
    && v <= c
    && forall k: nat :: v <= Pow2(k) ==> c <= Pow2(k)
  }

  method RoundUpPow2(v: nat) returns (c: nat, ghost k: nat)
    requires v <= Pow2(63)
    ensures LeastPow2AtLeast(c, v)
    ensures k <= 63 && c == Pow2(k)
  {
    c, k := 1, 0;
    assert c == Pow2(0);
    hide *;
    while c < v
      invariant k <= 63 && c == Pow2(k)
      invariant k > 0 ==> Pow2(k - 1) < v
      decreases 63 - k
    {
      Doubles(v, k);
      c, k := (c * 2) % WORD, k + 1;
    }
    IsLeast(c, v, k);
  }

  lemma Doubles(v: nat, k: nat)
    requires k <= 63 && Pow2(k) < v <= Pow2(63)
    ensures k < 63 && (Pow2(k) * 2) % WORD == Pow2(k + 1)
  {
    ShiftOnce(k + 1);
  }

  lemma IsLeast(c: nat, v: nat, k: nat)
    requires c == Pow2(k) && v <= c && (k > 0 ==> Pow2(k - 1) < v)
    ensures LeastPow2AtLeast(c, v)
  {
    forall j: nat | v <= Pow2(j) ensures c <= Pow2(j) {
      if j < k { Pow2Monotone(j, k - 1); } else { Pow2Monotone(k, j); }
    }
  }

  lemma ShiftOnce(n: nat)
    requires n > 0
    ensures n <= 63 ==> (2 * Pow2(n - 1)) % WORD == Pow2(n)
    ensures n == 64 ==> (2 * Pow2(n - 1)) % WORD == 0
  {
    WordIsPow2();
    if n <= 63 { Pow2Monotone(n, 63); }
  }

  lemma {:induction false} ShiftedIs(n: nat)
    ensures Shifted(n) == if n <= 63 then Pow2(n) else 0
  {
    if n > 0 {
      ShiftedIs(n - 1);
      ShiftOnce(n);
    }
  }

  /** The shift loop ends exactly for arguments up to 2^63; above that `c` wraps to 0 and stays there. */
  lemma RoundUpPow2TerminatesIff(v: nat)
    requires v < WORD
    ensures (exists n: nat :: v <= Shifted(n)) <==> v <= Pow2(63)
  {
    ShiftedIs(63);
    assert v <= Pow2(63) ==> v <= Shifted(63);
    if n: nat :| v <= Shifted(n) {
      ShiftedIs(n);
      if n <= 63 { Pow2Monotone(n, 63); }
    }
  }

  // ----- the ring -----

  /** The slot of the i-th record ever pushed. */
  function SlotOf(i: nat, capacity: nat): (j: nat)
    requires capacity > 0
    ensures j < capacity
  {
    i % capacity
  }

  /** Records less than a capacity apart never share a slot. */
  lemma SlotsDistinct(lo: nat, hi: nat, capacity: nat)
    requires lo < hi < lo + capacity
    ensures SlotOf(lo, capacity) != SlotOf(hi, capacity)
  {
    ModDistinct(lo, hi, capacity);
  }

  /** The n records stored from position `tail` on, in slots taken modulo the capacity. */
  function Live(slots: seq<string>, tail: nat, n: nat): (q: seq<string>)
    requires |slots| > 0
    ensures |q| == n
  {
    seq(n, i requires 0 <= i < n => slots[SlotOf(tail + i, |slots|)])
  }

  /** Writing the slot behind the last live record appends to the live records and disturbs none. */
  lemma LivePush(slots: seq<string>, tail: nat, n: nat, record: string)
    requires n < |slots|
    ensures Live(slots[SlotOf(tail + n, |slots|) := record], tail, n + 1) == Live(slots, tail, n) + [record]
  {
    hide SlotOf;
    forall j: nat | tail <= j < tail + n ensures SlotOf(j, |slots|) != SlotOf(tail + n, |slots|) {
      SlotsDistinct(j, tail + n, |slots|);
    }
  }

  /** Moving the oldest record out of its slot, whatever is left there, leaves the other live records. */
  lemma LivePop(slots: seq<string>, tail: nat, n: nat, junk: string)
    requires 0 < n <= |slots|
    ensures Live(slots, tail, n)
         == [slots[SlotOf(tail, |slots|)]] + Live(slots[SlotOf(tail, |slots|) := junk], tail + 1, n - 1)
  {
    hide SlotOf;
    forall j: nat | tail < j < tail + n ensures SlotOf(j, |slots|) != SlotOf(tail, |slots|) {
      SlotsDistinct(tail, j, |slots|);
    }
    var rest := Live(slots[SlotOf(tail, |slots|) := junk], tail + 1, n - 1);
    forall i | 0 <= i < n - 1 ensures rest[i] == Live(slots, tail, n)[i + 1] {
      assert (tail + 1) + i == tail + (i + 1);
    }
  }

  /** The live records do not depend on whether the tail counter has wrapped. */
  lemma LiveWraps(slots: seq<string>, tail: nat, n: nat, k: nat)
    requires k <= 63 && |slots| == Pow2(k)
    ensures Live(slots, tail % WORD, n) == Live(slots, tail, n)
  {
    hide SlotOf, Pow2;
    forall i: nat | i < n ensures Live(slots, tail % WORD, n)[i] == Live(slots, tail, n)[i] {
      SlotWraps(tail, i, k);
    }
  }

  lemma SlotWraps(tail: nat, i: nat, k: nat)
    requires k <= 63
    ensures SlotOf(tail % WORD + i, Pow2(k)) == SlotOf(tail + i, Pow2(k))
  {
    WordFactor(k);
    ModOfWrapped(tail, i, Pow2(64 - k), Pow2(k));
  }

  class StringSpscRing {
    const capacity: nat
    const mask: nat
    const slots: array<string>
    var head: Word
    var tail: Word
    var dropped: nat

    ghost predicate Valid()
      reads this
    {
      && (exists k: nat :: k <= 63 && capacity == Pow2(k))
      && mask == capacity - 1 && slots.Length == capacity
      && Sub(head, tail) <= capacity
    }

    ghost function Contents(): seq<string>
      requires Valid()
      reads this, slots
    {
      Live(slots[..], tail, Sub(head, tail))
    }

    constructor (capacityHint: nat)
      requires capacityHint <= Pow2(63)
      ensures Valid() && fresh(slots)
      ensures Contents() == [] && dropped == 0
      ensures LeastPow2AtLeast(capacity, if capacityHint == 0 then 1 else capacityHint)
    {
      WordIsPow2();
      var c, k := RoundUpPow2(if capacityHint == 0 then 1 else capacityHint);
      capacity := c;
      mask := c - 1;
      slots := new string[c](_ => "");
      head, tail, dropped := 0, 0, 0;
      new;
      assert k <= 63 && capacity == Pow2(k);
    }

    /** A push into a full ring drops the NEW record. */
    method TryPush(record: string) returns (ok: bool)
      requires Valid()
      modifies this`head, this`dropped, slots
      ensures Valid()
      ensures ok <==> |old(Contents())| < capacity
      ensures Contents() == if ok then old(Contents()) + [record] else old(Contents())
      ensures dropped == old(dropped) + if ok then 0 else 1
    {
      ghost var k: nat :| k <= 63 && capacity == Pow2(k);
      if Sub(head, tail) >= capacity {
        dropped := dropped + 1;
        return false;
      }
      PushAppends(slots[..], head, tail, k, record);
      hide BitAnd, Live, Inc, Sub;
      slots[BitAnd(head, mask)] := record;
      head := Inc(head);
      ok := true;
    }

    /** What std::move leaves behind in the slot is unspecified; `junk` stands for it. */
    method TryPop(junk: string) returns (ok: bool, out: string)
      requires Valid()
      modifies this`tail, slots
      ensures Valid()
      ensures ok <==> old(Contents()) != []
      ensures ok ==> old(Contents()) == [out] + Contents()
      ensures !ok ==> Contents() == []
    {
      ghost var k: nat :| k <= 63 && capacity == Pow2(k);
      if tail == head { return false, ""; }
      PopRemoves(slots[..], head, tail, k, junk);
      hide BitAnd, Live, Inc, Sub;
      out := slots[BitAnd(tail, mask)];
      slots[BitAnd(tail, mask)] := junk;
      tail := Inc(tail);
      ok := true;
    }
  }

  lemma PushAppends(slots: seq<string>, head: Word, tail: Word, k: nat, record: string)
    requires k <= 63 && |slots| == Pow2(k) && Sub(head, tail) < |slots|
    ensures var j := BitAnd(head, |slots| - 1);
            && j < |slots| && Sub(Inc(head), tail) == Sub(head, tail) + 1
            && Live(slots[j := record], tail, Sub(Inc(head), tail)) == Live(slots, tail, Sub(head, tail)) + [record]
  {
    hide BitAnd, Live, Inc, Sub, SlotOf, Pow2;
    HeadIsBehindLive(head, tail, k);
    LivePush(slots, tail, Sub(head, tail), record);
  }

  lemma PopRemoves(slots: seq<string>, head: Word, tail: Word, k: nat, junk: string)
    requires k <= 63 && |slots| == Pow2(k) && head != tail && Sub(head, tail) <= |slots|
    ensures var j := BitAnd(tail, |slots| - 1);
            && j < |slots| && 0 < Sub(head, tail) && Sub(head, Inc(tail)) == Sub(head, tail) - 1
            && Live(slots, tail, Sub(head, tail)) == [slots[j]] + Live(slots[j := junk], Inc(tail), Sub(head, Inc(tail)))
  {
    hide *;
    NotEqualIsPositive(head, tail);
    IncWraps(tail);
    TailAdvances(head, tail, k);
    var j, n := SlotOf(tail, |slots|), Sub(head, tail);
    LivePop(slots, tail, n, junk);
    LiveWraps(slots[j := junk], tail + 1, n - 1, k);
  }

  lemma NotEqualIsPositive(head: Word, tail: Word)
    requires head != tail
    ensures Sub(head, tail) > 0
  {
  }

  lemma IncWraps(x: Word)
    ensures Inc(x) == (x + 1) % WORD
  {
  }

  lemma HeadIsBehindLive(head: nat, tail: nat, k: nat)
    requires k <= 63 && head < WORD && tail < WORD && Sub(head, tail) < Pow2(k)
    ensures BitAnd(head, Pow2(k) - 1) == SlotOf(tail + Sub(head, tail), Pow2(k))
    ensures Sub(Inc(head), tail) == Sub(head, tail) + 1
  {
    WordFactor(k);
    var i := tail + Sub(head, tail);
    assert i == head || i == head + WORD;
    assert i % WORD == head by { hide *; ModUnique(i, if i == head then 0 else 1, WORD, head); }
    MaskAgrees(i, k);
  }

  lemma TailAdvances(head: nat, tail: nat, k: nat)
    requires k <= 63 && head < WORD && tail < WORD && 0 < Sub(head, tail) <= Pow2(k)
    ensures BitAnd(tail, Pow2(k) - 1) == SlotOf(tail, Pow2(k))
    ensures Sub(head, Inc(tail)) == Sub(head, tail) - 1
  {
    hide BitAnd, Pow2;
    MaskAgrees(tail, k);
  }
}
