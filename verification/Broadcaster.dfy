/** `TradingBroadcasterServer`: its handlers on the objects they update, and whole runs of them. */
module Broadcaster {
  import opened Chars
  import opened Numbers
  import opened JsonValue
  import opened JsonGrammar
  import opened JsonBounds
  import opened EndPoints
  import opened BroadcasterState
  import Parser = JsonParser

  // Helpers of the handlers

  lemma HasKeyOrNot<K, V>(m: map<K, V>)
    ensures m == map[] || exists k :: k in m
  {
    if m != map[] {
      HasKey(m);
    }
  }

  lemma HasKey<K, V>(m: map<K, V>)
    requires m != map[]
    ensures exists k :: k in m
  {
    if m.Keys == {} {
      assert false;
    }
  }

  /** The inner loop of `handle_clear_aggregator`, up to its `break`. */
  method CloseOne(endpoint: EndPoint, recorded: seq<int>, failing: set<int>) returns (closed: bool)
    requires endpoint.Valid() && forall id :: id in recorded ==> id == -1 || id in endpoint.connections
    ensures closed <==> exists id :: id in recorded && !(id in failing && id >= 0)
  {
    closed := false;
    for i := 0 to |recorded|
      invariant !closed ==> forall k :: 0 <= k < i ==> recorded[k] in failing && recorded[k] >= 0
      invariant closed ==> exists id :: id in recorded && !(id in failing && id >= 0)
    {
      var id := recorded[i];
      assert id in recorded;
      var r := endpoint.Close(id, id in failing);
      if r != 0 {
        closed := true;
        break;
      }
    }
  }

  /** The innermost loop: a set holds an id once, so it sends once. */
  method SendWhereEqual(endpoint: EndPoint, id: int, registered: seq<int>, ghost at: nat, text: string)
    requires Ascending(registered) && at < |registered| && registered[at] == id
    modifies endpoint
    ensures endpoint.nextId == old(endpoint.nextId) && endpoint.connections == old(endpoint.connections)
    ensures endpoint.attempts == old(endpoint.attempts) + [Message(id, text)]
    ensures endpoint.wire == old(endpoint.wire) + if id in endpoint.connections then [Message(id, text)] else []
  {
    for k := 0 to |registered|
      invariant endpoint.nextId == old(endpoint.nextId) && endpoint.connections == old(endpoint.connections)
      invariant endpoint.attempts == old(endpoint.attempts) + if at < k then [Message(id, text)] else []
      invariant endpoint.wire == old(endpoint.wire)
                               + if at < k && id in endpoint.connections then [Message(id, text)] else []
    {
      if registered[k] == id {
        endpoint.Send(id, text);
      }
    }
  }

  /** The inner two loops of `handle_add_provider`: over the ids recorded for an endpoint, and over
      the registered ids, sending where they agree. */
  method SendToRegistered(endpoint: EndPoint, recorded: seq<int>, registered: seq<int>, text: string)
    requires Ascending(recorded) && recorded == registered
    modifies endpoint
    ensures endpoint.nextId == old(endpoint.nextId) && endpoint.connections == old(endpoint.connections)
    ensures endpoint.attempts == old(endpoint.attempts) + ToEach(recorded, text)
    ensures endpoint.wire == old(endpoint.wire) + Reaching(endpoint.connections, ToEach(recorded, text))
  {
    for i := 0 to |recorded|
      invariant endpoint.nextId == old(endpoint.nextId) && endpoint.connections == old(endpoint.connections)
      invariant endpoint.attempts == old(endpoint.attempts) + ToEach(recorded[..i], text)
      invariant endpoint.wire == old(endpoint.wire) + Reaching(endpoint.connections, ToEach(recorded[..i], text))
    {
      SendWhereEqual(endpoint, recorded[i], registered, i, text);
      ToEachSnoc(recorded, text, i);
      ReachingSnoc(endpoint.connections, ToEach(recorded[..i], text), Message(recorded[i], text));
    }
    assert recorded[..|recorded|] == recorded;
  }

  /** The inner loop of `handle_clear_providers`. */
  method SendToAll(endpoint: EndPoint, recorded: seq<int>, text: string)
    modifies endpoint
    ensures endpoint.nextId == old(endpoint.nextId) && endpoint.connections == old(endpoint.connections)
    ensures endpoint.attempts == old(endpoint.attempts) + ToEach(recorded, text)
    ensures endpoint.wire == old(endpoint.wire) + Reaching(endpoint.connections, ToEach(recorded, text))
  {
    for i := 0 to |recorded|
      invariant endpoint.nextId == old(endpoint.nextId) && endpoint.connections == old(endpoint.connections)
      invariant endpoint.attempts == old(endpoint.attempts) + ToEach(recorded[..i], text)
      invariant endpoint.wire == old(endpoint.wire) + Reaching(endpoint.connections, ToEach(recorded[..i], text))
    {
      endpoint.Send(recorded[i], text);
      ToEachSnoc(recorded, text, i);
      ReachingSnoc(endpoint.connections, ToEach(recorded[..i], text), Message(recorded[i], text));
    }
    assert recorded[..|recorded|] == recorded;
  }

  // The server

  /** There is at most one endpoint; `ids` are its ids, and each that names a connection is in its
      table. */
  ghost predicate Agrees(ids: seq<int>, endpoints: map<EndPoint, seq<int>>)
    reads endpoints.Keys
  {
    && Ascending(ids)
    && (forall e, f :: e in endpoints && f in endpoints ==> e == f)
    && (endpoints == map[] ==> ids == [])
    && (forall e :: e in endpoints ==>
          && e.Valid() && endpoints[e] == ids
          && forall id :: id in ids ==> id == -1 || id in e.connections)
  }

  class TradingBroadcasterServer {
    /** `m_endpoints`: every endpoint with the ids recorded for it. */
    var endpoints: map<EndPoint, seq<int>>
    var ids: seq<int>
    var symbols: set<string>
    var broadcastArray: seq<Value>
    var clearedPrices: bool
    /** What the subscriber's connection was given, and what the storage client was asked to post. */
    var outbox: seq<string>
    ghost var posted: set<string>

    ghost predicate Valid()
      reads this, endpoints.Keys
    {
      Agrees(ids, endpoints)
    }

    /** The server is in this state. */
    ghost predicate Shows(s: State)
      reads this, endpoints.Keys
    {
      && s.ids == ids && s.symbols == symbols && s.cleared == clearedPrices && s.posted == posted
      && s.batch == Batch(broadcastArray, outbox)
      && (s.table.None? <==> endpoints == map[])
      && forall e :: e in endpoints ==> s.table == Some(e.Contents())
    }

    constructor ()
      ensures Valid() && endpoints == map[] && Shows(START)
    {
      endpoints, ids, symbols, broadcastArray, clearedPrices := map[], [], {}, [], false;
      outbox, posted := [], {};
    }

    lemma InOrder()
      requires Valid()
      ensures Ascending(ids)
    {
    }

    // The registry

    /** There is only one endpoint to do. */
    lemma OnlyEndpoint(endpoint: EndPoint, rest: set<EndPoint>)
      requires Valid() && endpoint in endpoints && rest <= endpoints.Keys - {endpoint}
      ensures rest == {}
    {
    }

    method AddFirst(host: string, first: bool) returns (id: int)
      requires Valid() && endpoints == map[]
      modifies this`endpoints, this`ids
      ensures Valid() && endpoints != map[]
      ensures forall e :: e in endpoints ==> fresh(e) && e.Contents() == Table(0, map[], [], []).Connected(host, first)
      ensures id == (if first then 0 else -1) && ids == Insert(old(ids), id)
    {
      hide Insert, Ascending;
      var endpoint := new EndPoint();
      id := endpoint.Connect(host, first);
      ids := Insert(ids, id);
      endpoints := endpoints[endpoint := Insert([], id)];
      assert endpoint in endpoints && forall e :: e in endpoints ==> e == endpoint;
    }

    method AddTo(endpoint: EndPoint, host: string, first: bool, second: bool) returns (id: int)
      requires Valid() && endpoint in endpoints
      modifies this`endpoints, this`ids, endpoint
      ensures Valid() && endpoints.Keys == old(endpoints.Keys)
      ensures endpoint.Contents() == old(endpoint.Contents()).Connected(host, first).Connected(host, second)
      ensures id == (if first then old(endpoint.nextId) else -1) && ids == Insert(old(ids), id)
      ensures first ==> id !in old(ids)
    {
      hide Insert, Ascending;
      id := endpoint.Connect(host, first);
      assert first ==> id !in ids;
      ids := Insert(ids, id);
      endpoints := endpoints[endpoint := Insert(endpoints[endpoint], id)];
      var _ := endpoint.Connect(host, second);
    }

    /** The branches of `handle_add_aggregator`. */
    method ConnectTo(host: string, first: bool, second: bool) returns (clientId: int)
      requires Valid()
      modifies this`endpoints, this`ids, endpoints.Keys
      ensures Valid() && endpoints != map[]
      ensures old(endpoints) == map[] ==>
                && clientId == (if first then 0 else -1)
                && forall e :: e in endpoints ==>
                     fresh(e) && e.Contents() == Table(0, map[], [], []).Connected(host, first)
      ensures old(endpoints) != map[] ==> endpoints.Keys == old(endpoints.Keys)
      ensures forall e :: e in old(endpoints) ==>
                && clientId == (if first then old(e.nextId) else -1)
                && e.Contents() == old(e.Contents()).Connected(host, first).Connected(host, second)
      ensures ids == Insert(old(ids), clientId) && (first ==> clientId !in old(ids))
    {
      hide Insert, Ascending;
      clientId := -1;
      if endpoints == map[] {
        clientId := AddFirst(host, first);
      } else {
        var todo := endpoints.Keys;
        HasKey(endpoints);
        while todo != {}
          invariant Valid() && endpoints.Keys == old(endpoints.Keys) && todo <= endpoints.Keys
          invariant todo != {} ==> ids == old(ids)
          invariant forall e :: e in todo ==> unchanged(e)
          invariant forall e :: e in endpoints && e !in todo ==>
                      && clientId == (if first then old(e.nextId) else -1)
                      && e.Contents() == old(e.Contents()).Connected(host, first).Connected(host, second)
          invariant todo == {} ==> ids == Insert(old(ids), clientId) && (first ==> clientId !in old(ids))
        {
          var endpoint :| endpoint in todo;
          todo := todo - {endpoint};
          OnlyEndpoint(endpoint, todo);
          clientId := AddTo(endpoint, host, first, second);
        }
      }
    }

    /** `first` and `second` say whether the library can set up the connections of the two calls of
        `connect`; the id of the second one is not recorded. */
    method HandleAddAggregator(payload: string, first: bool, second: bool, ghost s: State)
      returns (error: Option<Error>, reply: Value)
      requires Valid() && Shows(s) && !Load(payload).OutOfBounds?
      modifies this`endpoints, this`ids, endpoints.Keys
      ensures Valid() && Shows(Handled(s, AddAggregator(payload, first, second)))
      ensures error.Some? <==> Load(payload).Throws?
      ensures error.None? ==> endpoints != map[]
      ensures forall e :: e in endpoints ==> e in old(endpoints) || fresh(e)
      ensures error.None? && old(endpoints) == map[] ==> forall e :: e in endpoints ==> e.nextId == Bit(first)
      ensures error.None? ==> forall e :: e in old(endpoints) ==>
                && e in endpoints && e.nextId == old(e.nextId) + Bit(first) + Bit(second)
                && e.attempts == old(e.attempts) && e.wire == old(e.wire)
      ensures error.None? ==>
                exists id :: ids == Insert(old(ids), id) && (id == -1 <==> !first) && (first ==> id !in old(ids))
      ensures error.None? ==>
                reply == var host := Get(Load(payload).value, "host").ToString();
                         StatusJson("processed",
                                    if first then "connected to " + host else "error connecting to " + host)
    {
      hide Load, Get, Value.ToString, StatusJson, Insert, Agrees, Handled, Table.Connected;
      reply := Null;
      InOrder();
      Connections();
      var request := Parser.Load(payload);
      if request.Throws? {
        HandledUnloaded(s, payload, first, second);
        return Some(request.error), reply;
      }
      HandledAggregator(s, payload, first, second);
      HasKeyOrNot(endpoints);
      var host := Get(request.value, "host").ToString();
      var clientId := ConnectTo(host, first, second);
      error := None;
      reply := StatusJson("processed",
                          if clientId != -1 then "connected to " + host else "error connecting to " + host);
    }

    /** `failing` are the ids whose close the library reports an error for. If every id is one of
        them, or there is none, the handler waits forever. */
    method HandleClearAggregator(failing: set<int>, ghost s: State) returns (finished: bool, reply: Value)
      requires Valid() && Shows(s)
      modifies this`endpoints, this`ids
      ensures Valid() && Shows(Handled(s, ClearAggregator(failing)))
      ensures finished <==> old(exists id :: id in ids && !(id in failing && id >= 0))
      ensures finished ==> endpoints == map[] && ids == [] && reply == StatusJson("processed", "")
      ensures !finished ==> endpoints == old(endpoints) && ids == old(ids)
    {
      finished, reply := false, Null;
      var todo := endpoints.Keys;
      while todo != {}
        invariant Valid() && endpoints == old(endpoints) && ids == old(ids) && todo <= endpoints.Keys
        invariant finished ==> CanClear(ids, failing)
        invariant !finished && todo != endpoints.Keys ==> forall id :: id in ids ==> id in failing && id >= 0
      {
        var endpoint :| endpoint in todo;
        todo := todo - {endpoint};
        var closed := CloseOne(endpoint, endpoints[endpoint], failing);
        finished := finished || closed;
      }
      if finished {
        reply := StatusJson("processed", "");
        endpoints := map[];
        ids := [];
      }
    }

    /** `payload` was sent to each recorded id of the endpoint, in order. */
    twostate predicate SentToAll(e: EndPoint, recorded: seq<int>, payload: string)
      reads e
    {
      && e.nextId == old(e.nextId) && e.connections == old(e.connections)
      && e.attempts == old(e.attempts) + ToEach(recorded, payload)
      && e.wire == old(e.wire) + Reaching(e.connections, ToEach(recorded, payload))
    }

    /** Each endpoint, each of its ids, each registered id that equals it: one send. */
    method SendToAgreeing(payload: string)
      requires Valid()
      modifies endpoints.Keys
      ensures Valid() && forall e :: e in endpoints ==> SentToAll(e, ids, payload)
    {
      hide Ascending;
      var todo := endpoints.Keys;
      while todo != {}
        invariant Valid() && todo <= endpoints.Keys
        invariant forall e :: e in endpoints ==> if e in todo then unchanged(e) else SentToAll(e, ids, payload)
      {
        var endpoint :| endpoint in todo;
        todo := todo - {endpoint};
        SendToRegistered(endpoint, endpoints[endpoint], ids, payload);
      }
    }

    method HandleAddProvider(payload: string, ghost s: State) returns (error: Option<Error>)
      requires Valid() && Shows(s) && (endpoints != map[] ==> !Load(payload).OutOfBounds?)
      modifies this`symbols, endpoints.Keys
      ensures Valid() && Shows(Handled(s, AddProvider(payload)))
      ensures error.Some? <==> endpoints != map[] && Load(payload).Throws?
      ensures symbols == old(symbols) + if endpoints != map[] && error.None? then SymbolsOf(Load(payload).value) else {}
      ensures forall e :: e in endpoints ==> if error.None? then SentToAll(e, ids, payload) else unchanged(e)
    {
      hide Load, Agrees, SymbolsOf, Handled;
      InOrder();
      HandledProvider(s, payload);
      if endpoints == map[] {
        return None;
      }
      var request := Parser.Load(payload);
      if request.Throws? {
        return Some(request.error);
      }
      symbols := symbols + SymbolsOf(request.value);
      SendToAgreeing(payload);
      error := None;
    }

    /** Each endpoint, each of its ids: one send. */
    method SendToEvery(payload: string)
      requires Valid()
      modifies endpoints.Keys
      ensures Valid() && forall e :: e in endpoints ==> SentToAll(e, ids, payload)
    {
      hide Ascending;
      var todo := endpoints.Keys;
      while todo != {}
        invariant Valid() && todo <= endpoints.Keys
        invariant forall e :: e in endpoints ==> if e in todo then unchanged(e) else SentToAll(e, ids, payload)
      {
        var endpoint :| endpoint in todo;
        todo := todo - {endpoint};
        SendToAll(endpoint, endpoints[endpoint], payload);
      }
    }

    method HandleClearProviders(payload: string, ghost s: State) returns (error: Option<Error>)
      requires Valid() && Shows(s) && !Load(payload).OutOfBounds?
      modifies endpoints.Keys
      ensures Valid() && Shows(Handled(s, ClearProviders(payload))) && (error.Some? <==> Load(payload).Throws?)
      ensures forall e :: e in endpoints ==> if error.None? then SentToAll(e, ids, payload) else unchanged(e)
    {
      hide Load, Agrees;
      InOrder();
      var request := Parser.Load(payload);
      if request.Throws? {
        return Some(request.error);
      }
      SendToEvery(payload);
      error := None;
    }

    /** The same sends, and prices are to be posted again. */
    method HandleClearPrices(payload: string, ghost s: State) returns (error: Option<Error>)
      requires Valid() && Shows(s) && !Load(payload).OutOfBounds?
      modifies this`clearedPrices, endpoints.Keys
      ensures Valid() && Shows(Handled(s, ClearPrices(payload))) && (error.Some? <==> Load(payload).Throws?)
      ensures clearedPrices == (error.None? || old(clearedPrices))
      ensures forall e :: e in endpoints ==> if error.None? then SentToAll(e, ids, payload) else unchanged(e)
    {
      hide Load, Ascending;
      error := HandleClearProviders(payload, s);
      if error.None? {
        clearedPrices := true;
      }
    }

    // Broadcasts

    method Collect(data: string) returns (error: Option<Error>)
      requires !Load(data).OutOfBounds?
      modifies this`clearedPrices, this`posted, this`broadcastArray, this`outbox
      ensures Batch(broadcastArray, outbox) == Deliver(Batch(old(broadcastArray), old(outbox)), data)
      ensures error.Some? <==> Load(data).Throws?
      ensures error.None? ==> !clearedPrices && posted == old(posted) + if old(clearedPrices) then symbols else {}
      ensures error.Some? ==> clearedPrices == old(clearedPrices) && posted == old(posted)
    {
      hide Load, Dump;
      var status := Parser.Load(data);
      if status.Throws? {
        return Some(status.error);
      }
      if clearedPrices {
        posted := posted + symbols;
        clearedPrices := false;
      }
      var response := Parser.Load(data);
      broadcastArray := broadcastArray + [response.value];
      if |broadcastArray| == 2 {
        outbox := outbox + [Dump(Array(broadcastArray))];
        broadcastArray := [];
      }
      error := None;
    }

    /** The `broadcast` branch of the callback, for one message of the subscribed aggregator. */
    method OnBroadcast(data: string, ghost s: State) returns (error: Option<Error>)
      requires Valid() && Shows(s) && !Load(data).OutOfBounds?
      modifies this`clearedPrices, this`posted, this`broadcastArray, this`outbox
      ensures Valid() && Shows(Handled(s, Broadcast(data)))
      ensures Batch(broadcastArray, outbox) == Deliver(Batch(old(broadcastArray), old(outbox)), data)
      ensures error.Some? <==> Load(data).Throws?
      ensures error.None? ==> !clearedPrices && posted == old(posted) + if old(clearedPrices) then symbols else {}
      ensures error.Some? ==> clearedPrices == old(clearedPrices) && posted == old(posted)
    {
      hide Load, Deliver, Agrees, Handled;
      InOrder();
      HandledBroadcast(s, data);
      BroadcastUnloaded(s, data);
      error := Collect(data);
    }

    /** A whole subscription, from an empty array. */
    method OnBroadcasts(messages: seq<string>, ghost s: State)
      requires Valid() && Shows(s) && broadcastArray == [] && outbox == []
      requires forall i :: 0 <= i < |messages| ==> !Load(messages[i]).OutOfBounds?
      modifies this
      ensures Valid()
      ensures Batch(broadcastArray, outbox) == DeliverAll(messages)
      ensures FlattenLoaded(outbox) + RoundedItems(broadcastArray) == RoundedItems(Loaded(messages))
    {
      hide Load, Deliver, Loaded, FlattenLoaded, RoundedItems, Agrees;
      ghost var now := s;
      for i := 0 to |messages|
        invariant Valid() && Shows(now) && Batch(broadcastArray, outbox) == DeliverAll(messages[..i])
      {
        assert messages[..i + 1][..i] == messages[..i];
        var _ := OnBroadcast(messages[i], now);
        now := Handled(now, Broadcast(messages[i]));
      }
      assert messages[..|messages|] == messages;
      BatchingConserves(messages);
    }
  }

  // Whole runs

  /** One message. */
  method Handle(server: TradingBroadcasterServer, e: Event, ghost s: State) returns (waiting: bool)
    requires server.Valid() && server.Shows(s) && !e.ReadsBeyond(s.table.Some?)
    modifies server, server.endpoints.Keys
    ensures server.Valid() && server.Shows(Handled(s, e))
    ensures forall p :: p in server.endpoints ==> p in old(server.endpoints) || fresh(p)
    ensures waiting <==> e.ClearAggregator? && !CanClear(s.ids, e.failing)
    ensures waiting ==> Handled(s, e) == s
  {
    hide Load, Ascending;
    waiting := false;
    match e {
      case AddAggregator(payload, first, second) => var _, _ := server.HandleAddAggregator(payload, first, second, s);
      case ClearAggregator(failing) =>
        var finished, _ := server.HandleClearAggregator(failing, s);
        waiting := !finished;
      case AddProvider(payload) => var _ := server.HandleAddProvider(payload, s);
      case ClearProviders(payload) => var _ := server.HandleClearProviders(payload, s);
      case ClearPrices(payload) => var _ := server.HandleClearPrices(payload, s);
      case Broadcast(data) => var _ := server.OnBroadcast(data, s);
    }
  }

  lemma OneMoreEvent(events: seq<Event>, n: nat)
    requires n < |events|
    ensures HandledAll(events[..n + 1]) == Handled(HandledAll(events[..n]), events[n])
    ensures GetsPast(events, n + 1) <==> GetsPast(events, n) && !Stops(HandledAll(events[..n]), events[n])
  {
    hide Stops, Handled, HandledAll;
    StateAfter(events, n);
  }

  /** Any run from a new server leaves the state the messages make of it, one after the other. It stops
      only at a message that is read past its end, or that waits forever for a connection to close. */
  method Serve(events: seq<Event>) returns (s: TradingBroadcasterServer, done: nat)
    ensures s.Valid() && done <= |events| && s.Shows(HandledAll(events[..done]))
    ensures GetsPast(events, done)
    ensures done < |events| ==> Stops(HandledAll(events[..done]), events[done])
    ensures (forall i :: 0 <= i < |events| ==> events[i].IsTidy()) && done < |events| ==>
              events[done].ClearAggregator? && !CanClear(HandledAll(events[..done]).ids, events[done].failing)
  {
    hide Load, Tidy, Event.IsTidy, Agrees, Handled, HandledAll, GetsPast, Event.ReadsBeyond, CanClear;
    s := new TradingBroadcasterServer();
    done := 0;
    NoEvents(events);
    while done < |events|
      invariant s.Valid() && fresh(s) && done <= |events| && forall e :: e in s.endpoints ==> fresh(e)
      invariant s.Shows(HandledAll(events[..done])) && GetsPast(events, done)
    {
      if events[done].ReadsBeyond(s.endpoints != map[]) {
        if events[done].IsTidy() {
          TidyEventsAreReadInBounds(events[done], s.endpoints != map[]);
        }
        return;
      }
      OneMoreEvent(events, done);
      var stopped := Handle(s, events[done], HandledAll(events[..done]));
      if stopped {
        return;
      }
      done := done + 1;
    }
  }
}
