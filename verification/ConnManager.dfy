/** The connection cache as an object: one call at a time. */
module ConnManager {
  import opened Common

  /** Connection c is the c-th one ever created; `dialed[c]` is the address it was created for. */
  class Manager {
    var idx: map<string, nat>
    var dialed: seq<string>

    /** Every connection is in the cache under its own address. */
    ghost predicate Valid()
      reads this
    {
      && (forall a :: a in idx ==> idx[a] < |dialed| && dialed[idx[a]] == a)
      && (forall c :: 0 <= c < |dialed| ==> dialed[c] in idx && idx[dialed[c]] == c)
    }

    constructor ()
      ensures Valid() && idx == map[] && dialed == []
    {
      idx, dialed := map[], [];
    }

    /**
     A known address gives its connection; an unknown one is dialed once and remembered;
     a failed dial leaves no trace. Whatever is returned is what every later call returns.
     */
    method Get(address: string, dialFails: bool) returns (conn: Option<nat>)
      requires Valid()
      modifies this
      ensures Valid()
      ensures address in old(idx) ==> conn == Some(old(idx)[address]) && idx == old(idx) && dialed == old(dialed)
      ensures address !in old(idx) && dialFails ==> conn.None? && idx == old(idx) && dialed == old(dialed)
      ensures address !in old(idx) && !dialFails ==>
                && conn == Some(|old(dialed)|)
                && idx == old(idx)[address := |old(dialed)|]
                && dialed == old(dialed) + [address]
      ensures conn.Some? <==> address in idx
      ensures conn.Some? ==> idx[address] == conn.value && dialed[conn.value] == address
      ensures forall a :: a in old(idx) ==> a in idx && idx[a] == old(idx)[a]
    {
      if address in idx {
        return Some(idx[address]);
      }
      if dialFails {
        return None;
      }
      conn := Some(|dialed|);
      dialed := dialed + [address];
      idx := idx[address := |dialed| - 1];
    }

    /** Closes every connection exactly once, in any order; nil exactly if no Close failed. */
    method Stop(closeFails: nat -> bool) returns (closed: seq<nat>, failed: bool)
      requires Valid()
      ensures forall i :: 0 <= i < |closed| ==> closed[i] < |dialed|
      ensures forall i, j :: 0 <= i < j < |closed| ==> closed[i] != closed[j]
      ensures forall c :: 0 <= c < |dialed| ==> c in closed
      ensures failed <==> exists c :: 0 <= c < |dialed| && closeFails(c)
    {
      closed, failed := [], false;
      var todo := idx.Keys;
      while todo != {}
        invariant todo <= idx.Keys
        invariant forall i, j :: 0 <= i < j < |closed| ==> closed[i] != closed[j]
        invariant forall i :: 0 <= i < |closed| ==> closed[i] < |dialed| && dialed[closed[i]] !in todo
        invariant forall c :: 0 <= c < |dialed| ==> dialed[c] in todo || c in closed
        invariant failed <==> exists c :: c in closed && closeFails(c)
        decreases todo
      {
        var address :| address in todo;
        var conn := idx[address];
        if closeFails(conn) {
          failed := true;
        }
        closed := closed + [conn];
        todo := todo - {address};
      }
    }
  }
}
