/** The pool of reusable connections (internal/pool/pool.go): per key a bounded first-in first-out
    shelf of idle clients. */
module Pool {
  type Shelves<C> = map<string, seq<C>>

  /** The shelf of a key, empty until the first Get for it. */
  function Shelf<C>(shelves: Shelves<C>, key: string): seq<C>
  {
    if key in shelves then shelves[key] else []
  }

  /** After Get: the longest waiting client is gone, and the key has a shelf. */
  function Taken<C>(shelves: Shelves<C>, key: string): Shelves<C>
  {
    shelves[key := if Shelf(shelves, key) == [] then [] else Shelf(shelves, key)[1..]]
  }

  predicate HasRoom<C>(shelves: Shelves<C>, size: nat, key: string)
  {
    key in shelves && |shelves[key]| < size
  }

  /** After Put: the client waits behind the others if its shelf has room, and is closed if not. */
  function Returned<C>(shelves: Shelves<C>, size: nat, key: string, client: C): Shelves<C>
  {
    if HasRoom(shelves, size, key) then shelves[key := shelves[key] + [client]] else shelves
  }

  // ---------------------------------------------------------------- first in, first out

  datatype Use<C> = Take(key: string) | Give(key: string, client: C)

  /** The shelves after these Gets and Puts, by whatever requests. */
  function Used<C>(shelves: Shelves<C>, size: nat, uses: seq<Use<C>>): Shelves<C>
  {
    if uses == [] then
      shelves
    else
      var before := Used(shelves, size, uses[..|uses| - 1]);
      match uses[|uses| - 1]
      case Take(key) => Taken(before, key)
      case Give(key, client) => Returned(before, size, key, client)
  }

  function Takes<C>(uses: seq<Use<C>>, key: string): (n: nat)
  {
    if uses == [] then
      0
    else
      var last := uses[|uses| - 1];
      Takes(uses[..|uses| - 1], key) + if last.Take? && last.key == key then 1 else 0
  }

  /** Each Get for its key brings a waiting client one place forward, and nothing else moves it. */
  lemma {:induction false} WaitsItsTurn<C>(shelves: Shelves<C>, size: nat, uses: seq<Use<C>>, key: string, i: nat)
    requires key in shelves && i < |shelves[key]| && Takes(uses, key) <= i
    ensures var t, n := Used(shelves, size, uses), Takes(uses, key);
            key in t && i - n < |t[key]| && t[key][i - n] == shelves[key][i]
  {
    if uses != [] { WaitsItsTurn(shelves, size, uses[..|uses| - 1], key, i); }
  }

  /** A client put behind `n` others while there is room is the one for the Get after `n` Gets, whatever else
      is taken and put meanwhile. */
  lemma FirstInFirstOut<C>(shelves: Shelves<C>, size: nat, key: string, client: C, uses: seq<Use<C>>)
    requires key in shelves && |shelves[key]| < size && Takes(uses, key) == |shelves[key]|
    ensures var shelf := Shelf(Used(Returned(shelves, size, key, client), size, uses), key);
            shelf != [] && shelf[0] == client
  {
    WaitsItsTurn(Returned(shelves, size, key, client), size, uses, key, |shelves[key]|);
  }

  // ---------------------------------------------------------------- the pool

  class Client {
    var connected: bool

    constructor ()
      ensures !connected
    {
      connected := false;
    }

    /** The dial succeeds or not; a connected client refuses. */
    method Connect(dial: bool) returns (ok: bool)
      modifies this
      ensures ok == (dial && !old(connected))
      ensures connected == (old(connected) || ok)
    {
      if connected {
        return false;
      }
      connected := dial;
      return dial;
    }

    method Close()
      modifies this
      ensures !connected
    {
      connected := false;
    }
  }

  class ConnectionPool {
    var pools: Shelves<Client>
    const size: nat

    ghost function Idle(): (idle: set<Client>)
      reads this
    {
      set key, i: nat | key in pools && i < |pools[key]| :: pools[key][i]
    }

    predicate Bounded()
      reads this
    {
      forall key <- pools :: |pools[key]| <= size
    }

    constructor (wanted: int)
      ensures size == (if wanted <= 0 then 10 else wanted) && pools == map[] && Bounded()
    {
      size := if wanted <= 0 then 10 else wanted;
      pools := map[];
    }

    method Get(key: string) returns (client: Client, reused: bool)
      requires Bounded()
      modifies this
      ensures Bounded() && pools == Taken(old(pools), key)
      ensures reused <==> Shelf(old(pools), key) != []
      ensures if reused then client == old(pools)[key][0] else fresh(client) && !client.connected
    {
      if key !in pools {
        pools := pools[key := []];
      }
      if |pools[key]| > 0 {
        client, reused := pools[key][0], true;
        pools := pools[key := pools[key][1..]];
      } else {
        client := new Client();
        reused := false;
      }
    }

    method Put(key: string, client: Client)
      requires Bounded()
      modifies this, client
      ensures Bounded() && pools == Returned(old(pools), size, key, client)
      ensures client.connected == (old(client.connected) && HasRoom(old(pools), size, key))
    {
      if key !in pools {
        client.Close();
        return;
      }
      if |pools[key]| < size {
        pools := pools[key := pools[key] + [client]];
      } else {
        client.Close();
      }
    }

    method RetryStaleConnection(client: Client, dial: bool) returns (renewed: Client?, ok: bool)
      modifies client
      ensures !client.connected
      ensures ok == dial
      ensures if ok then renewed != null && fresh(renewed) && renewed.connected else renewed == null
    {
      client.Close();
      var newClient := new Client();
      ok := newClient.Connect(dial);
      renewed := if ok then newClient else null;
    }

    /** Every idle client is closed, and no client that is checked out is touched. */
    method Close()
      modifies this, Idle()
      ensures forall client <- old(Idle()) :: !client.connected
      ensures pools.Keys == old(pools.Keys) && forall key <- pools :: pools[key] == []
    {
      var keys := pools.Keys;
      while keys != {}
        invariant keys <= pools.Keys == old(pools.Keys)
        invariant forall key <- pools :: pools[key] == if key in keys then old(pools)[key] else []
        invariant forall key, i: nat | key in old(pools) && key !in keys && i < |old(pools)[key]| ::
            !old(pools)[key][i].connected
        decreases |keys|
      {
        var key :| key in keys;
        Drain(key);
        keys := keys - {key};
      }
    }

    method Drain(key: string)
      requires key in pools
      modifies this, pools[key]
      ensures pools == old(pools)[key := []]
      ensures forall i: nat | i < |old(pools)[key]| :: !old(pools)[key][i].connected
      ensures forall client: Client :: old(allocated(client)) && !old(client.connected) ==> !client.connected
    {
      ghost var all, n := pools[key], 0;
      while |pools[key]| > 0
        invariant n <= |all| && key in pools && pools == old(pools)[key := all[n..]]
        invariant forall i: nat :: i < n ==> !all[i].connected
        invariant forall client: Client :: old(allocated(client)) && !old(client.connected) ==> !client.connected
        decreases |all| - n
      {
        var client := pools[key][0];
        pools := pools[key := pools[key][1..]];
        client.Close();
        n := n + 1;
      }
    }
  }
}
