/** The message-id counter of `_new_msg_id` (BlynkLib.py:336-340): bump by one,
    and wrap from 65535 back to 1, so that the reserved id 0 is never issued. */
module MsgIds {

  const MAX_ID: int := 0xFFFF

  /** The id issued after `m`. */
  function NextId(m: int): int
  {
    if m + 1 > MAX_ID then 1 else m + 1
  }

  /** Every issued id is in 1..65535, hence never 0; it is the previous id plus
      one, except that 65535 is followed by 1. */
  lemma NextIdRange(m: int)
    requires 0 <= m <= MAX_ID
    ensures 1 <= NextId(m) <= MAX_ID
    ensures m < MAX_ID ==> NextId(m) == m + 1
    ensures m == MAX_ID ==> NextId(m) == 1
  {
  }

  /** The counter is seeded with 1 at the start of a run (BlynkLib.py:518),
      so the first id issued is 2. */
  lemma FirstIssuedId()
    ensures NextId(1) == 2
  {
  }

  /** The id current after `n` more ids have been issued from `m`. */
  function IdAfter(m: int, n: nat): int
    decreases n
  {
    if n == 0 then m else NextId(IdAfter(m, n - 1))
  }

  /** After `n` issues from a counter in 1..65535 the counter is `m + n`
      taken cyclically within 1..65535. */
  lemma {:induction false} IdAfterCyclic(m: int, n: nat)
    requires 1 <= m <= MAX_ID
    ensures IdAfter(m, n) == (m - 1 + n) % MAX_ID + 1
    decreases n
  {
    if n > 0 {
      IdAfterCyclic(m, n - 1);
      var k := (m - 1 + n - 1) % MAX_ID;
      assert IdAfter(m, n - 1) == k + 1;
      if k + 1 == MAX_ID {
        assert (m - 1 + n) % MAX_ID == 0 by { ModStep(m - 1 + n - 1, k); }
      } else {
        assert (m - 1 + n) % MAX_ID == k + 1 by { ModStep(m - 1 + n - 1, k); }
      }
    }
  }

  /** Adding one to a number adds one to its remainder, or wraps it to 0. */
  lemma ModStep(x: int, k: int)
    requires x >= 0 && k == x % MAX_ID
    ensures (x + 1) % MAX_ID == if k + 1 == MAX_ID then 0 else k + 1
  {
    var q := x / MAX_ID;
    assert x == q * MAX_ID + k;
    if k + 1 == MAX_ID {
      assert x + 1 == (q + 1) * MAX_ID;
    } else {
      assert x + 1 == q * MAX_ID + (k + 1);
    }
  }

  /** Ids issued within one wrap period are pairwise distinct: an id comes
      back only after exactly 65535 further issues. */
  lemma IdsDistinctWithinPeriod(m: int, i: nat, j: nat)
    requires 1 <= m <= MAX_ID
    requires i < j < i + MAX_ID
    ensures IdAfter(m, i) != IdAfter(m, j)
    ensures IdAfter(m, i + MAX_ID) == IdAfter(m, i)
  {
    IdAfterCyclic(m, i);
    IdAfterCyclic(m, j);
    IdAfterCyclic(m, i + MAX_ID);
    ModDistinct(m - 1 + i, j - i);
    ModPeriod(m - 1 + i);
  }

  /** Remainders of two numbers less than one period apart differ. */
  lemma ModDistinct(x: int, d: int)
    requires x >= 0 && 0 < d < MAX_ID
    ensures x % MAX_ID != (x + d) % MAX_ID
  {
    var q := x / MAX_ID;
    var r := x % MAX_ID;
    assert x == q * MAX_ID + r;
    if r + d < MAX_ID {
      assert x + d == q * MAX_ID + (r + d);
    } else {
      assert x + d == (q + 1) * MAX_ID + (r + d - MAX_ID);
    }
  }

  /** Adding one period keeps the remainder. */
  lemma ModPeriod(x: int)
    requires x >= 0
    ensures (x + MAX_ID) % MAX_ID == x % MAX_ID
  {
    var q := x / MAX_ID;
    assert x + MAX_ID == (q + 1) * MAX_ID + x % MAX_ID;
  }
}
