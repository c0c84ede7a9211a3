/** `EndPoint` of the broadcaster: a table of client connections under consecutive ids. */
module EndPoints {
  import opened Chars

  /** A message handed to `send`, and the id it is for. */
  datatype Message = Message(id: int, text: string)

  /** The messages that `send` finds a connection for. */
  function Reaching(connections: map<int, string>, ms: seq<Message>): seq<Message> {
    if ms == [] then []
    else (if ms[0].id in connections then [ms[0]] else []) + Reaching(connections, ms[1..])
  }

  lemma {:induction false} ReachingSnoc(connections: map<int, string>, ms: seq<Message>, m: Message)
    ensures Reaching(connections, ms + [m])
         == Reaching(connections, ms) + if m.id in connections then [m] else []
  {
    if ms == [] {
      assert ms + [m] == [m] && [m][1..] == [];
    } else {
      ReachingSnoc(connections, ms[1..], m);
      assert (ms + [m])[1..] == ms[1..] + [m];
    }
  }

  /** A table of connections, and the messages of its endpoint so far. */
  datatype Table = Table(nextId: nat, connections: map<int, string>, attempts: seq<Message>, wire: seq<Message>) {
    /** After a call of `connect`. */
    function Connected(uri: string, available: bool): Table {
      if available then Table(nextId + 1, connections[nextId := uri], attempts, wire) else this
    }

    /** After the messages were handed to `send`. */
    function Sent(ms: seq<Message>): Table {
      Table(nextId, connections, attempts + ms, wire + Reaching(connections, ms))
    }
  }

  class EndPoint {
    var nextId: nat
    /** `m_connection_list`; a connection is represented by its uri. */
    var connections: map<int, string>
    /** Every message `send` was called with, and those given to a connection. */
    ghost var attempts: seq<Message>
    ghost var wire: seq<Message>

    /** The table's keys are exactly the ids given out so far. */
    ghost predicate Valid()
      reads this
    {
      forall i :: i in connections <==> 0 <= i < nextId
    }

    ghost function Contents(): Table
      reads this
    {
      Table(nextId, connections, attempts, wire)
    }

    constructor ()
      ensures Valid() && Contents() == Table(0, map[], [], [])
    {
      nextId, connections, attempts, wire := 0, map[], [], [];
    }

    /** `available` says whether the library could set up the connection. */
    method Connect(uri: string, available: bool) returns (id: int)
      requires Valid()
      modifies this
      ensures Valid() && attempts == old(attempts) && wire == old(wire)
      ensures !available ==> id == -1 && nextId == old(nextId) && connections == old(connections)
      ensures available ==> id !in old(connections) && id >= 0 && connections == old(connections)[id := uri]
      ensures available ==> id == old(nextId)
      ensures nextId == old(nextId) + if available then 1 else 0
      ensures connections.Keys >= old(connections).Keys
    {
      if !available {
        return -1;
      }
      id := nextId;
      nextId := nextId + 1;
      connections := connections[id := uri];
    }

    /** Nonzero if the connection closes, and also if there is none; `fails` says whether the library
        reports an error. */
    method Close(id: int, fails: bool) returns (r: int)
      ensures r == if id in connections && fails then 0 else 1
    {
      if id !in connections {
        return 1;
      }
      r := if fails then 0 else 1;
    }

    method Send(id: int, text: string)
      modifies this
      ensures nextId == old(nextId) && connections == old(connections)
      ensures attempts == old(attempts) + [Message(id, text)]
      ensures wire == old(wire) + if id in connections then [Message(id, text)] else []
    {
      attempts := attempts + [Message(id, text)];
      if id !in connections {
        return;
      }
      wire := wire + [Message(id, text)];
    }

    method GetMetadata(id: int) returns (connection: Option<string>)
      requires Valid()
      ensures connection.Some? <==> 0 <= id < nextId
      ensures connection.Some? ==> connection.value == connections[id]
    {
      connection := if id in connections then Some(connections[id]) else None;
    }
  }
}
