/** Party A's queue of escalated transactions (internal/partya/escalation.go). Entries are updated in
    place: whoever got an entry from Get sees later updates. Each method runs under the queue's lock. */
module EscalationQueue {
  import opened Bytes
  import opened Options

  datatype Status = Pending | Rejected | Signed

  class PendingTx {
    const txID: string
    var status: Status
    const reason: string
    const unsignedTx: seq<Byte>
    var signedTx: Option<seq<Byte>>
    const rpcURL: string
    const extraSignerKeys: seq<seq<Byte>>

    constructor (txID: string, reason: string, unsignedTx: seq<Byte>, rpcURL: string, extraSignerKeys: seq<seq<Byte>>)
      ensures this.txID == txID && status == Pending && this.reason == reason && this.unsignedTx == unsignedTx
      ensures signedTx == None && this.rpcURL == rpcURL && this.extraSignerKeys == extraSignerKeys
    {
      this.txID, status, this.reason, this.unsignedTx := txID, Pending, reason, unsignedTx;
      signedTx, this.rpcURL, this.extraSignerKeys := None, rpcURL, extraSignerKeys;
    }

    function View(): Entry
      reads this
    {
      Entry(status, reason, unsignedTx, signedTx, rpcURL, extraSignerKeys)
    }
  }

  datatype Entry = Entry(
    status: Status, reason: string, unsignedTx: seq<Byte>, signedTx: Option<seq<Byte>>,
    rpcURL: string, extraSignerKeys: seq<seq<Byte>>)

  class Queue {
    var pending: map<string, PendingTx>

    constructor ()
      ensures Valid() && Contents() == map[]
    {
      pending := map[];
    }

    /** Entries are filed under their own ID, so no two keys share an entry. */
    ghost predicate Valid()
      reads this
    {
      forall id :: id in pending ==> pending[id].txID == id
    }

    ghost function Contents(): map<string, Entry>
      reads this, pending.Values
    {
      map id | id in pending :: pending[id].View()
    }

    method Add(txID: string, reason: string, unsignedTx: seq<Byte>, rpcURL: string, extraSignerKeys: seq<seq<Byte>>)
      requires Valid()
      modifies this
      ensures Valid()
      ensures Contents() == old(Contents())[txID := Entry(Pending, reason, unsignedTx, None, rpcURL, extraSignerKeys)]
    {
      var p := new PendingTx(txID, reason, unsignedTx, rpcURL, extraSignerKeys);
      pending := pending[txID := p];
    }

    method Get(txID: string) returns (p: PendingTx?)
      requires Valid()
      ensures (p == null) == (txID !in Contents())
      ensures p != null ==> p in pending.Values && p.txID == txID && p.View() == Contents()[txID]
    {
      p := if txID in pending then pending[txID] else null;
    }

    /** Sets the status, and the signed bytes if some are given. */
    method Update(txID: string, status: Status, signedTx: Option<seq<Byte>>) returns (found: bool)
      requires Valid()
      modifies pending.Values
      ensures Valid() && pending == old(pending)
      ensures found <==> txID in old(Contents())
      ensures !found ==> Contents() == old(Contents())
      ensures found ==> var e := old(Contents())[txID];
                        Contents() == old(Contents())[txID := e.(status := status,
                                                                 signedTx := if signedTx.Some? then signedTx
                                                                             else e.signedTx)]
    {
      if txID !in pending {
        return false;
      }
      var p := pending[txID];
      p.status := status;
      if signedTx.Some? {
        p.signedTx := signedTx;
      }
      return true;
    }

    method Delete(txID: string)
      requires Valid()
      modifies this
      ensures Valid() && Contents() == old(Contents()) - {txID}
    {
      pending := pending - {txID};
    }

    /** All entries, in map order. */
    method List() returns (result: seq<PendingTx>)
      requires Valid()
      ensures |result| == |pending|
      ensures forall p :: p in result <==> p in pending.Values
    {
      result := [];
      var left := pending.Keys;
      while left != {}
        invariant left <= pending.Keys
        invariant |result| + |left| == |pending.Keys|
        invariant forall p :: p in result <==> exists id :: id in pending && id !in left && pending[id] == p
        decreases |left|
      {
        var id :| id in left;
        result := result + [pending[id]];
        left := left - {id};
      }
    }
  }

  /** An entry handed out earlier is the one a later update changes: GetSignStatus holds one while the
      status query to Party B updates it. */
  method UpdateReachesHolder(q: Queue, txID: string, status: Status, signedTx: Option<seq<Byte>>)
    returns (p: PendingTx?)
    requires q.Valid()
    modifies q.pending.Values
    ensures (p == null) == (txID !in old(q.Contents()))
    ensures p != null ==> p.status == status
    ensures p != null ==> p.signedTx == if signedTx.Some? then signedTx else old(q.Contents())[txID].signedTx
    ensures p != null ==> p.unsignedTx == old(q.Contents())[txID].unsignedTx
  {
    p := q.Get(txID);
    var found := q.Update(txID, status, signedTx);
    if p != null {
      assert q.pending[txID] == p;
      assert q.Contents()[txID] == p.View();
    }
  }
}
