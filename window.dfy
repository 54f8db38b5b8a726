/** The window of a connection: which transaction numbers still await an acknowledgement, and
    the batch request each one carries. */
module Windows {
  import opened Wrappers

  class RelpWindow {
    /** transaction number -> request id */
    var pending: map<int, int>

    constructor ()
      ensures pending == map[]
    {
      pending := map[];
    }

    /** `putPending(txnId, requestId)`: a later put for the same number overwrites. */
    method PutPending(txnId: int, requestId: int)
      modifies this
      ensures pending == old(pending)[txnId := requestId]
      ensures IsPending(txnId) && GetPending(txnId) == Some(requestId)
      ensures Size() == old(Size()) + (if txnId in old(pending) then 0 else 1)
      ensures forall t :: t != txnId ==> GetPending(t) == old(GetPending(t))
    {
      pending := pending[txnId := requestId];
    }

    function IsPending(txnId: int): (b: bool)
      reads this
      ensures b <==> GetPending(txnId).Some?
    {
      txnId in pending
    }

    /** `getPending(txnId)`; null (None) for a number that is not pending. */
    function GetPending(txnId: int): (r: Option<int>)
      reads this
      ensures r.Some? <==> txnId in pending
      ensures r.Some? ==> pending[txnId] == r.value
    {
      if txnId in pending then Some(pending[txnId]) else None
    }

    method RemovePending(txnId: int)
      modifies this
      ensures pending == old(pending) - {txnId}
      ensures !IsPending(txnId)
      ensures Size() == old(Size()) - (if txnId in old(pending) then 1 else 0)
      ensures forall t :: t != txnId ==> GetPending(t) == old(GetPending(t))
    {
      pending := pending - {txnId};
      if txnId in old(pending) {
        assert old(pending).Keys == pending.Keys + {txnId};
      } else {
        assert old(pending).Keys == pending.Keys;
      }
    }

    /** The number of distinct pending transaction numbers. */
    function Size(): (n: nat)
      reads this
      ensures n == |pending.Keys|
    {
      |pending|
    }
  }
}
