/** The relay server (relay_server.py): the registry of connected clients and the broadcast
    that every connection handler performs for each message it receives. */
module Relay {

  /** A connected websocket, compared by identity. */
  type Client = nat

  /** One `client.send(message)` issued by a broadcast. */
  datatype Send = Send(to: Client, message: string)

  /** The clients a sequence of sends is addressed to. */
  function Recipients(sends: seq<Send>): set<Client>
  {
    set k | 0 <= k < |sends| :: sends[k].to
  }

  /** No client is sent to twice. */
  predicate Distinct(sends: seq<Send>)
  {
    forall k, l :: 0 <= k < l < |sends| ==> sends[k].to != sends[l].to
  }

  /** `connected_clients`, the module-global set of open connections. */
  class Registry {
    var clients: set<Client>

    constructor ()
      ensures clients == {}
    {
      clients := {};
    }

    /** `register(websocket)`: `connected_clients.add(websocket)`. */
    method Register(c: Client)
      modifies this
      ensures clients == old(clients) + {c}
    {
      clients := clients + {c};
    }

    /** `unregister(websocket)`: `connected_clients.remove(websocket)`, which raises
        `KeyError` (and changes nothing) when the client is not registered. */
    method Unregister(c: Client) returns (raised: bool)
      modifies this
      ensures raised <==> c !in old(clients)
      ensures clients == old(clients) - {c}
    {
      if c !in clients {
        return true;
      }
      clients := clients - {c};
      raised := false;
    }

    /** The broadcast in `relay_handler`: one send of the message to each client registered at
        that moment (the sender included), all issued whatever the others' outcome. `failing`
        are the clients whose send raises; the exception is collected by `gather` and the
        client stays registered. */
    method Broadcast(message: string, failing: set<Client>)
      returns (sends: seq<Send>, delivered: set<Client>, failed: set<Client>)
      ensures Recipients(sends) == clients && Distinct(sends) && |sends| == |clients|
      ensures forall k :: 0 <= k < |sends| ==> sends[k].message == message
      ensures delivered == clients - failing && failed == clients * failing
    {
      sends, delivered, failed := [], {}, {};
      if clients != {} {
        var pending := clients;
        while pending != {}
          invariant pending <= clients
          invariant SentSoFar(sends, clients - pending, message, failing, delivered, failed)
          decreases pending
        {
          var c :| c in pending;
          assert clients - (pending - {c}) == (clients - pending) + {c};
          SentOneMore(sends, clients - pending, message, failing, delivered, failed, c);
          sends := sends + [Send(c, message)];
          if c in failing {
            failed := failed + {c};
          } else {
            delivered := delivered + {c};
          }
          pending := pending - {c};
        }
      }
    }

    /** `relay_handler(websocket)`: register, broadcast every message received until the
        connection ends (normally or by `ConnectionClosed`), then unregister in `finally`. */
    method Handle(c: Client, messages: seq<string>, failing: set<Client>)
      returns (broadcasts: seq<seq<Send>>, raised: bool)
      modifies this
      ensures clients == old(clients) - {c}
      ensures !raised
      ensures |broadcasts| == |messages|
      ensures forall i :: 0 <= i < |messages| ==>
        Recipients(broadcasts[i]) == old(clients) + {c} && Distinct(broadcasts[i])
        && forall k :: 0 <= k < |broadcasts[i]| ==> broadcasts[i][k].message == messages[i]
    {
      Register(c);
      broadcasts := [];
      var i := 0;
      while i < |messages|
        invariant 0 <= i <= |messages|
        invariant clients == old(clients) + {c}
        invariant |broadcasts| == i
        invariant forall j :: 0 <= j < i ==>
          Recipients(broadcasts[j]) == old(clients) + {c} && Distinct(broadcasts[j])
          && forall k :: 0 <= k < |broadcasts[j]| ==> broadcasts[j][k].message == messages[j]
      {
        var sends, _, _ := Broadcast(messages[i], failing);
        broadcasts := broadcasts + [sends];
        i := i + 1;
      }
      raised := Unregister(c);
    }
  }

  /** The state of a broadcast that has sent `message` once to each client of `done`. */
  predicate SentSoFar(sends: seq<Send>, done: set<Client>, message: string, failing: set<Client>,
                      delivered: set<Client>, failed: set<Client>)
  {
    Recipients(sends) == done && Distinct(sends) && |sends| == |done|
    && (forall k :: 0 <= k < |sends| ==> sends[k].message == message)
    && delivered == done - failing && failed == done * failing
  }

  lemma SentOneMore(sends: seq<Send>, done: set<Client>, message: string, failing: set<Client>,
                    delivered: set<Client>, failed: set<Client>, c: Client)
    requires SentSoFar(sends, done, message, failing, delivered, failed) && c !in done
    ensures SentSoFar(sends + [Send(c, message)], done + {c}, message, failing,
                      if c in failing then delivered else delivered + {c},
                      if c in failing then failed + {c} else failed)
  {
    RecipientsSnoc(sends, Send(c, message));
    DistinctSnoc(sends, Send(c, message));
  }

  lemma RecipientsSnoc(sends: seq<Send>, x: Send)
    ensures Recipients(sends + [x]) == Recipients(sends) + {x.to}
  {
    var t := sends + [x];
    forall c | c in Recipients(t)
      ensures c in Recipients(sends) + {x.to}
    {
      var k :| 0 <= k < |t| && t[k].to == c;
      if k < |sends| {
        assert sends[k] == t[k];
      }
    }
    forall c | c in Recipients(sends) + {x.to}
      ensures c in Recipients(t)
    {
      if c == x.to {
        assert t[|sends|].to == c;
      } else {
        var k :| 0 <= k < |sends| && sends[k].to == c;
        assert t[k] == sends[k];
      }
    }
  }

  lemma DistinctSnoc(sends: seq<Send>, x: Send)
    requires Distinct(sends) && x.to !in Recipients(sends)
    ensures Distinct(sends + [x])
  {
    var t := sends + [x];
    forall k, l | 0 <= k < l < |t|
      ensures t[k].to != t[l].to
    {
      assert t[k] == sends[k];
      if l < |sends| {
        assert t[l] == sends[l];
      }
    }
  }

  /** A broadcast reaches every registered client exactly once: the number of sends to a
      client is one when it is a recipient and zero otherwise. */
  lemma {:induction false} SendCount(sends: seq<Send>, c: Client)
    requires Distinct(sends)
    ensures CountTo(sends, c) == if c in Recipients(sends) then 1 else 0
    decreases |sends|
  {
    if sends != [] {
      var init := sends[..|sends| - 1];
      var last := sends[|sends| - 1];
      assert Distinct(init);
      SendCount(init, c);
      assert init + [last] == sends;
      RecipientsSnoc(init, last);
      if last.to == c {
        forall k | 0 <= k < |init|
          ensures init[k].to != c
        {
          assert sends[k] == init[k];
        }
      }
    }
  }

  /** How many of the sends go to `c`. */
  function CountTo(sends: seq<Send>, c: Client): nat
  {
    if sends == [] then 0
    else CountTo(sends[..|sends| - 1], c) + (if sends[|sends| - 1].to == c then 1 else 0)
  }
}
