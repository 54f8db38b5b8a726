/** The transaction-number counter of a connection: it hands out 1, 2, 3, ... and starts over at
    1 when the stored value reaches MAX_ID, so MAX_ID itself is never handed out. */
module TxIds {

  const MAX_ID: int := 999999999

  /** What `getNextTransactionIdentifier` returns when the counter holds `t`. */
  function Issue(t: int): (r: int)
    requires 1 <= t <= MAX_ID
    ensures 1 <= r < MAX_ID
    ensures t < MAX_ID ==> r == t
    ensures t == MAX_ID ==> r == 1
  {
    if t == MAX_ID then 1 else t
  }

  /** The stored value after `n` calls on a counter that held `t`. */
  function CounterAfter(t: int, n: nat): (r: int)
    requires 1 <= t <= MAX_ID
    ensures 1 <= r <= MAX_ID
  {
    if n == 0 then t else Issue(CounterAfter(t, n - 1)) + 1
  }

  /** The numbers `n` calls hand out, in order, on a counter that held `t`. */
  function IssuedFrom(t: int, n: nat): (r: seq<int>)
    requires 1 <= t <= MAX_ID
    ensures |r| == n
    ensures forall k :: 0 <= k < n ==> r[k] == Issue(CounterAfter(t, k))
  {
    if n == 0 then [] else IssuedFrom(t, n - 1) + [Issue(CounterAfter(t, n - 1))]
  }

  /** The number handed out by call `k` (counting from 0) on a fresh counter, which holds 1. */
  function IssuedAt(k: nat): int {
    Issue(CounterAfter(1, k))
  }

  /** On a fresh counter the first MAX_ID - 1 calls return 1, 2, ..., 999999998. */
  lemma {:induction false} IssuedFirstRound(k: nat)
    requires k < MAX_ID - 1
    ensures IssuedAt(k) == k + 1
  {
    if k > 0 {
      IssuedFirstRound(k - 1);
    }
  }

  /** ...and from then on the numbers repeat with period MAX_ID - 1. */
  lemma {:induction false} IssuedPeriodic(k: nat)
    ensures IssuedAt(k + (MAX_ID - 1)) == IssuedAt(k)
  {
    if k == 0 {
      IssuedFirstRound(MAX_ID - 2);
    } else {
      IssuedPeriodic(k - 1);
      assert k + (MAX_ID - 1) - 1 == (k - 1) + (MAX_ID - 1);
    }
  }

  /** Successive numbers are consecutive, except that 999999998 is followed by 1. */
  lemma NextIssued(k: nat)
    ensures IssuedAt(k) < MAX_ID - 1 ==> IssuedAt(k + 1) == IssuedAt(k) + 1
    ensures IssuedAt(k) == MAX_ID - 1 ==> IssuedAt(k + 1) == 1
  {
  }

  class TxID {
    var transactionIdentifier: int

    ghost predicate Valid()
      reads this
    {
      1 <= transactionIdentifier <= MAX_ID
    }

    constructor ()
      ensures Valid() && transactionIdentifier == CounterAfter(1, 0)
    {
      transactionIdentifier := 1;
    }

    /** `getNextTransactionIdentifier()`: reset to 1 at MAX_ID, then return and increment. */
    method GetNextTransactionIdentifier() returns (r: int)
      requires Valid()
      modifies this
      ensures Valid()
      ensures r == Issue(old(transactionIdentifier)) && transactionIdentifier == r + 1
    {
      if transactionIdentifier == MAX_ID {
        transactionIdentifier := 1;
      }
      r := transactionIdentifier;
      transactionIdentifier := transactionIdentifier + 1;
    }
  }
}
