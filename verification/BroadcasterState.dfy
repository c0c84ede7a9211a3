/** The broadcaster as a state machine: the registry of aggregators, what its handlers send, and the
    batching of broadcasts. */
module BroadcasterState {
  import opened Chars
  import opened Escapes
  import opened OrderedMap
  import opened JsonValue
  import opened JsonGrammar
  import opened JsonRoundTrip
  import opened JsonBounds
  import opened EndPoints

  // std::set<int>

  ghost predicate Ascending(ids: seq<int>) {
    forall i, j :: 0 <= i < j < |ids| ==> ids[i] < ids[j]
  }

  function Insert(ids: seq<int>, id: int): (r: seq<int>)
    requires Ascending(ids)
    ensures Ascending(r)
    ensures forall x :: x in r <==> x in ids || x == id
  {
    if ids == [] then [id]
    else if id < ids[0] then
      BelowAll(id, ids);
      [id] + ids
    else if id == ids[0] then ids
    else
      var rest := Insert(ids[1..], id);
      BelowAll(ids[0], rest);
      assert ids == [ids[0]] + ids[1..];
      [ids[0]] + rest
  }

  lemma BelowAll(x: int, ids: seq<int>)
    requires Ascending(ids) && (ids != [] ==> x < ids[0])
    ensures Ascending([x] + ids)
  {
    assert forall i :: 0 < i < |ids| ==> ids[0] < ids[i];
  }

  // What the handlers send

  /** One message for each registered id, in order. */
  function ToEach(ids: seq<int>, text: string): (ms: seq<Message>)
    ensures |ms| == |ids| && forall i :: 0 <= i < |ids| ==> ms[i] == Message(ids[i], text)
  {
    if ids == [] then [] else [Message(ids[0], text)] + ToEach(ids[1..], text)
  }

  lemma ToEachSnoc(ids: seq<int>, text: string, i: nat)
    requires i < |ids|
    ensures ToEach(ids[..i + 1], text) == ToEach(ids[..i], text) + [Message(ids[i], text)]
  {
  }

  function Bit(b: bool): nat {
    if b then 1 else 0
  }

  function StatusJson(status: string, message: string): Value {
    var members := Put([], "status", String(status));
    Object(if message == "" then members else Put(members, "message", String(message)))
  }

  /** A reply has its message only if there is one, and that stands first. */
  lemma StatusMembers(status: string, message: string)
    ensures StatusJson(status, "") == Object([Pair("status", String(status))])
    ensures message != "" ==>
              StatusJson(status, message) == Object([Pair("message", String(message)), Pair("status", String(status))])
  {
    assert Less("message", "status");
  }

  lemma {:induction false} AllReach(connections: map<int, string>, ids: seq<int>, text: string)
    requires forall i :: 0 <= i < |ids| ==> ids[i] in connections
    ensures Reaching(connections, ToEach(ids, text)) == ToEach(ids, text)
  {
    if ids != [] {
      AllReach(connections, ids[1..], text);
    }
  }

  /** On registered ids, exactly the ones that name a connection get the message, once each: all but
      the -1 that stands for failed connects. */
  lemma OneMessagePerConnection(connections: map<int, string>, ids: seq<int>, text: string)
    requires Ascending(ids) && forall c :: c in connections ==> c >= 0
    requires forall id :: id in ids ==> id == -1 || id in connections
    ensures Reaching(connections, ToEach(ids, text))
         == ToEach(if ids != [] && ids[0] == -1 then ids[1..] else ids, text)
  {
    if ids != [] && ids[0] == -1 {
      AllReach(connections, ids[1..], text);
    } else {
      forall i | 0 <= i < |ids|
        ensures ids[i] in connections
      {
        assert ids[0] in ids && ids[i] in ids;
      }
      AllReach(connections, ids, text);
    }
  }

  /** The items of the `symbols` member of a request. */
  function SymbolsOf(request: Value): set<string> {
    var list := Get(request, "symbols");
    if list.Array? then set v | v in list.items :: v.ToString() else {}
  }

  /** What `add-provider` records: of the `symbols` array each string, escaped, and the empty text for
      anything else in it; nothing if there is no such array. */
  lemma SymbolsAre(request: Value, symbol: string)
    ensures var list := Get(request, "symbols");
            symbol in SymbolsOf(request) <==>
              list.Array? && exists v :: v in list.items && symbol == if v.String? then Escape(v.str) else ""
  {
    hide Get, Escape;
    var list := Get(request, "symbols");
    if list.Array? {
      if symbol in SymbolsOf(request) {
        var v :| v in list.items && v.ToString() == symbol;
      }
      if v :| v in list.items && symbol == if v.String? then Escape(v.str) else "" {
        assert v.ToString() == symbol;
      }
    }
  }

  // Batching as a function of the messages

  /** The array being collected, and the texts sent so far. */
  datatype Batch = Batch(pending: seq<Value>, sent: seq<string>)

  function Deliver(b: Batch, data: string): Batch {
    match Load(data)
    case Done(v, _) =>
      var pending := b.pending + [v];
      if |pending| == 2 then Batch([], b.sent + [Dump(Array(pending))]) else Batch(pending, b.sent)
    case _ => b
  }

  function DeliverAll(messages: seq<string>): Batch {
    if messages == [] then Batch([], [])
    else Deliver(DeliverAll(messages[..|messages| - 1]), messages[|messages| - 1])
  }

  /** The values of the messages that load. */
  function Loaded(messages: seq<string>): seq<Value> {
    if messages == [] then []
    else
      var last := Load(messages[|messages| - 1]);
      Loaded(messages[..|messages| - 1]) + if last.Done? then [last.value] else []
  }

  /** What a receiver collects from the sent texts, one array after the other. */
  function FlattenLoaded(sent: seq<string>): seq<Value> {
    if sent == [] then []
    else
      var last := Load(sent[|sent| - 1]);
      FlattenLoaded(sent[..|sent| - 1]) + if last.Done? && last.value.Array? then last.value.items else []
  }

  predicate IsPair(text: string) {
    Load(text).Done? && Load(text).value.Array? && |Load(text).value.items| == 2
  }

  lemma {:induction false} RoundedAppend(a: seq<Value>, b: seq<Value>)
    ensures RoundedItems(a + b) == RoundedItems(a) + RoundedItems(b)
  {
    if a == [] {
      assert a + b == b;
    } else {
      assert (a + b)[0] == a[0] && (a + b)[1..] == a[1..] + b;
      RoundedAppend(a[1..], b);
      AssocCat([Rounded(a[0])], RoundedItems(a[1..]), RoundedItems(b));
    }
  }

  lemma SentPairLoads(v: Value, w: Value)
    requires Canonical(v) && Canonical(w)
    ensures Load(Dump(Array([v, w]))).Done?
    ensures Load(Dump(Array([v, w]))).value == Array(RoundedItems([v, w]))
  {
    LoadInvertsDumpIff(Array([v, w]));
  }

  ghost predicate Conserves(b: Batch, loaded: seq<Value>) {
    && FlattenLoaded(b.sent) + RoundedItems(b.pending) == RoundedItems(loaded)
    && |b.pending| <= 1 && CanonicalItems(b.pending)
    && 2 * |b.sent| + |b.pending| == |loaded|
    && forall i :: 0 <= i < |b.sent| ==> IsPair(b.sent[i])
  }

  /** The first of a pair waits. */
  lemma WaitsFor(b: Batch, v: Value, loaded: seq<Value>)
    requires Conserves(b, loaded) && b.pending == [] && Canonical(v)
    ensures Conserves(Batch([v], b.sent), loaded + [v])
  {
    hide Load, Canonical, Rounded, FlattenLoaded;
    RoundedAppend(loaded, [v]);
    assert FlattenLoaded(b.sent) + RoundedItems([]) == FlattenLoaded(b.sent);
  }

  lemma FlattenMore(sent: seq<string>, text: string)
    requires IsPair(text)
    ensures FlattenLoaded(sent + [text]) == FlattenLoaded(sent) + Load(text).value.items
  {
    hide Load;
    assert (sent + [text])[..|sent|] == sent;
  }

  /** The second one sends the pair. */
  lemma SendsPair(b: Batch, v: Value, w: Value, loaded: seq<Value>)
    requires Conserves(b, loaded) && b.pending == [v] && Canonical(w)
    ensures Conserves(Batch([], b.sent + [Dump(Array([v, w]))]), loaded + [w])
  {
    hide Load, Canonical, Rounded, Dump;
    SentPairLoads(v, w);
    FlattenMore(b.sent, Dump(Array([v, w])));
    RoundedAppend(loaded, [w]);
    RoundedAppend([v], [w]);
    assert [v] + [w] == [v, w];
    var flat := FlattenLoaded(b.sent);
    AssocCat(flat, RoundedItems([v]), RoundedItems([w]));
    assert flat + RoundedItems([v, w]) + [] == flat + RoundedItems([v, w]);
    assert RoundedItems([]) == [];
  }

  lemma Waiting(b: Batch, loaded: seq<Value>)
    requires Conserves(b, loaded)
    ensures |b.pending| <= 1
  {
  }

  lemma DeliverConserves(b: Batch, data: string, loaded: seq<Value>)
    requires Conserves(b, loaded)
    ensures var r := Load(data);
            Conserves(Deliver(b, data), loaded + if r.Done? then [r.value] else [])
  {
    hide Load, Conserves, Canonical, Dump;
    LoadIsCanonical(data);
    var r := Load(data);
    if r.Done? {
      Waiting(b, loaded);
      if b.pending == [] {
        WaitsFor(b, r.value, loaded);
        assert b.pending + [r.value] == [r.value];
      } else {
        var v := b.pending[0];
        assert b.pending == [v] && b.pending + [r.value] == [v, r.value];
        SendsPair(b, v, r.value, loaded);
      }
    } else {
      assert loaded + [] == loaded;
    }
  }

  /** Nothing is lost, repeated or reordered: what the receiver collects, followed by what is
      pending, is what came in, floats at six decimals. Every text sent is a pair, and at most one
      message waits. */
  lemma {:induction false} BatchingConserves(messages: seq<string>)
    ensures var b := DeliverAll(messages);
            && FlattenLoaded(b.sent) + RoundedItems(b.pending) == RoundedItems(Loaded(messages))
            && |b.pending| <= 1 && CanonicalItems(b.pending)
            && 2 * |b.sent| + |b.pending| == |Loaded(messages)|
            && forall i :: 0 <= i < |b.sent| ==> IsPair(b.sent[i])
    decreases |messages|
  {
    if messages != [] {
      var n := |messages| - 1;
      BatchingConserves(messages[..n]);
      DeliverConserves(DeliverAll(messages[..n]), messages[n], Loaded(messages[..n]));
    }
  }

  /** The texts sent, one by one: the k-th is the pair of the values 2k and 2k + 1 of those that
      loaded, and the odd one out waits. */
  lemma {:induction false} PairsInOrder(messages: seq<string>)
    ensures var b, vs := DeliverAll(messages), Loaded(messages);
            && 2 * |b.sent| + |b.pending| == |vs| && |b.pending| <= 1
            && (forall k :: 0 <= k < |b.sent| ==> b.sent[k] == Dump(Array([vs[2 * k], vs[2 * k + 1]])))
            && b.pending == vs[2 * |b.sent|..]
    decreases |messages|
  {
    hide Load, Dump;
    if messages != [] {
      var n := |messages| - 1;
      PairsInOrder(messages[..n]);
      var b, vs := DeliverAll(messages[..n]), Loaded(messages[..n]);
      var r := Load(messages[n]);
      if r.Done? {
        assert Loaded(messages) == vs + [r.value];
        PairAppended(b, vs, r.value);
      } else {
        assert Loaded(messages) == vs + [] == vs;
      }
    }
  }

  lemma PairAppended(b: Batch, vs: seq<Value>, v: Value)
    requires 2 * |b.sent| + |b.pending| == |vs| && |b.pending| <= 1 && b.pending == vs[2 * |b.sent|..]
    ensures |b.pending| == 1 ==> b.pending + [v] == [(vs + [v])[2 * |b.sent|], (vs + [v])[2 * |b.sent| + 1]]
    ensures |b.pending| == 0 ==> b.pending + [v] == (vs + [v])[2 * |b.sent|..]
    ensures |b.pending| == 1 ==> (vs + [v])[2 * |b.sent| + 2..] == []
  {
  }

  /** If every message loads, these are their values, */
  lemma {:induction false} LoadedAre(messages: seq<string>)
    requires forall i :: 0 <= i < |messages| ==> Load(messages[i]).Done?
    ensures |Loaded(messages)| == |messages|
    ensures forall i :: 0 <= i < |messages| ==> Loaded(messages)[i] == Load(messages[i]).value
    decreases |messages|
  {
    hide Load;
    if messages != [] {
      LoadedAre(messages[..|messages| - 1]);
    }
  }

  /** and a message that does not load is passed over, wherever it comes. */
  lemma {:induction false} UnloadedArePassedOver(before: seq<string>, message: string, behind: seq<string>)
    requires !Load(message).Done?
    ensures Loaded(before + [message] + behind) == Loaded(before + behind)
    decreases |behind|
  {
    hide Load;
    var all, rest := before + [message] + behind, before + behind;
    if behind == [] {
      assert all[..|all| - 1] == before && rest == before;
    } else {
      var n := |behind| - 1;
      assert all[..|all| - 1] == before + [message] + behind[..n] && rest[..|rest| - 1] == before + behind[..n];
      UnloadedArePassedOver(before, message, behind[..n]);
    }
  }

  // The server as a state machine

  /** One handled message, with what the connection library answers. */
  datatype Event =
    | AddAggregator(payload: string, first: bool, second: bool)
    | ClearAggregator(failing: set<int>)
    | AddProvider(payload: string)
    | ClearProviders(payload: string)
    | ClearPrices(payload: string)
    | Broadcast(data: string)
  {
    /** Handling the message reads past its end, where behaviour is undefined. Without an endpoint
        a provider is not even loaded. */
    predicate ReadsBeyond(registered: bool) {
      match this
      case AddAggregator(text, _, _) => Load(text).OutOfBounds?
      case AddProvider(text) => registered && Load(text).OutOfBounds?
      case ClearProviders(text) => Load(text).OutOfBounds?
      case ClearPrices(text) => Load(text).OutOfBounds?
      case Broadcast(text) => Load(text).OutOfBounds?
      case _ => false
    }

    predicate IsTidy() {
      match this
      case AddAggregator(text, _, _) => Tidy(text)
      case AddProvider(text) => Tidy(text)
      case ClearProviders(text) => Tidy(text)
      case ClearPrices(text) => Tidy(text)
      case Broadcast(text) => Tidy(text)
      case _ => true
    }
  }

  lemma TidyEventsAreReadInBounds(e: Event, registered: bool)
    requires e.IsTidy()
    ensures !e.ReadsBeyond(registered)
  {
    hide Load, Tidy;
    match e
    case AddAggregator(text, _, _) => TidyTextsAreReadInBounds(text);
    case AddProvider(text) => TidyTextsAreReadInBounds(text);
    case ClearProviders(text) => TidyTextsAreReadInBounds(text);
    case ClearPrices(text) => TidyTextsAreReadInBounds(text);
    case Broadcast(text) => TidyTextsAreReadInBounds(text);
    case _ =>
  }

  /** What the server knows: the table of its endpoint if it has one, the registered ids, the symbols,
      whether prices are to be posted again, what was posted, and the batch. */
  datatype State = State(table: Option<Table>, ids: seq<int>, symbols: set<string>, cleared: bool,
                         posted: set<string>, batch: Batch)

  const START: State := State(None, [], {}, false, {}, Batch([], []))

  /** Some registered id closes, or has no connection. */
  predicate CanClear(ids: seq<int>, failing: set<int>) {
    exists id :: id in ids && !(id in failing && id >= 0)
  }

  /** The message leaves the server in undefined behaviour, or waiting forever. */
  predicate Stops(s: State, e: Event) {
    e.ReadsBeyond(s.table.Some?) || (e.ClearAggregator? && !CanClear(s.ids, e.failing))
  }

  function Broadcasted(s: State, text: string): State {
    s.(table := if s.table.Some? then Some(s.table.value.Sent(ToEach(s.ids, text))) else None)
  }

  /** One message. Those that do not load change nothing, nor do those that stop the server. */
  function Handled(s: State, e: Event): (r: State)
    requires Ascending(s.ids)
    ensures Ascending(r.ids)
  {
    match e
    case AddAggregator(text, first, second) =>
      var loaded := Load(text);
      if !loaded.Done? then s
      else
        var host := Get(loaded.value, "host").ToString();
        var table := if s.table.Some? then s.table.value else Table(0, map[], [], []);
        var one := table.Connected(host, first);
        s.(table := Some(if s.table.Some? then one.Connected(host, second) else one),
           ids := Insert(s.ids, if first then table.nextId else -1))
    case ClearAggregator(failing) =>
      if CanClear(s.ids, failing) then s.(table := None, ids := []) else s
    case AddProvider(text) =>
      var loaded := Load(text);
      if s.table.Some? && loaded.Done? then Broadcasted(s, text).(symbols := s.symbols + SymbolsOf(loaded.value))
      else s
    case ClearProviders(text) =>
      if Load(text).Done? then Broadcasted(s, text) else s
    case ClearPrices(text) =>
      if Load(text).Done? then Broadcasted(s, text).(cleared := true) else s
    case Broadcast(text) =>
      if Load(text).Done? then
        s.(batch := Deliver(s.batch, text), cleared := false, posted := s.posted + if s.cleared then s.symbols else {})
      else s
  }

  lemma HandledBroadcast(s: State, text: string)
    requires Ascending(s.ids)
    ensures Handled(s, Broadcast(text))
         == if Load(text).Done? then
              State(s.table, s.ids, s.symbols, false, s.posted + if s.cleared then s.symbols else {},
                    Deliver(s.batch, text))
            else s
  {
    hide Load, Deliver;
  }

  lemma BroadcastUnloaded(s: State, text: string)
    ensures !Load(text).Done? ==> Deliver(s.batch, text) == s.batch
  {
    hide Load;
  }

  lemma HandledProvider(s: State, text: string)
    requires Ascending(s.ids)
    ensures Handled(s, AddProvider(text))
         == if s.table.Some? && Load(text).Done? then
              State(Some(s.table.value.Sent(ToEach(s.ids, text))), s.ids, s.symbols + SymbolsOf(Load(text).value),
                    s.cleared, s.posted, s.batch)
            else s
  {
    hide Load, SymbolsOf, Table.Sent, ToEach;
  }

  lemma HandledAggregator(s: State, text: string, first: bool, second: bool)
    requires Ascending(s.ids) && Load(text).Done?
    ensures var host := Get(Load(text).value, "host").ToString();
            Handled(s, AddAggregator(text, first, second))
              == match s.table
                 case None =>
                   State(Some(Table(0, map[], [], []).Connected(host, first)), Insert(s.ids, if first then 0 else -1),
                         s.symbols, s.cleared, s.posted, s.batch)
                 case Some(t) =>
                   State(Some(t.Connected(host, first).Connected(host, second)),
                         Insert(s.ids, if first then t.nextId else -1), s.symbols, s.cleared, s.posted, s.batch)
  {
    hide Load, Insert, Get, Value.ToString, Table.Connected;
  }

  /** Connecting counts the connections and sends nothing. */
  lemma Connections()
    ensures forall t: Table, host: string, available: bool ::
              t.Connected(host, available).nextId == t.nextId + Bit(available)
    ensures forall t: Table, host: string, available: bool ::
              t.Connected(host, available).attempts == t.attempts && t.Connected(host, available).wire == t.wire
  {
  }

  lemma HandledUnloaded(s: State, text: string, first: bool, second: bool)
    requires Ascending(s.ids) && !Load(text).Done?
    ensures Handled(s, AddAggregator(text, first, second)) == s
  {
    hide Load;
  }

  function HandledAll(events: seq<Event>): (r: State)
    ensures Ascending(r.ids)
  {
    if events == [] then START else Handled(HandledAll(events[..|events| - 1]), events[|events| - 1])
  }

  // What holds in every state a run reaches

  /** The keys of the table are the ids given out, and every registered id is one of them, or the -1
      that stands for failed connects. */
  ghost predicate Sound(s: State) {
    && (s.table.None? ==> s.ids == [])
    && (s.table.Some? ==>
          && (forall i :: i in s.table.value.connections <==> 0 <= i < s.table.value.nextId)
          && forall id :: id in s.ids ==> id == -1 || 0 <= id < s.table.value.nextId)
  }

  lemma HandledKeepsSound(s: State, e: Event)
    requires Ascending(s.ids) && Sound(s)
    ensures Sound(Handled(s, e))
  {
    hide Load, Get, Value.ToString, SymbolsOf, Deliver;
    match e
    case AddAggregator(text, first, second) =>
    case _ =>
  }

  lemma {:induction false} EveryStateIsSound(events: seq<Event>)
    ensures Sound(HandledAll(events))
    decreases |events|
  {
    hide Handled;
    if events != [] {
      EveryStateIsSound(events[..|events| - 1]);
      HandledKeepsSound(HandledAll(events[..|events| - 1]), events[|events| - 1]);
    }
  }

  /** In any state a run reaches, a provider's message that loads goes once to every registered id that
      names a connection, in order, and to no other. */
  lemma ProviderReachesEveryAggregator(events: seq<Event>, text: string)
    requires var s := HandledAll(events); s.table.Some? && Load(text).Done?
    ensures var s := HandledAll(events);
            var named := if s.ids != [] && s.ids[0] == -1 then s.ids[1..] else s.ids;
            var after := Handled(s, AddProvider(text)).table;
            && after.Some? && after.value.wire == s.table.value.wire + ToEach(named, text)
            && forall id :: id in named <==> id in s.ids && id in s.table.value.connections
  {
    hide Load, HandledAll, Handled, ToEach;
    var s := HandledAll(events);
    EveryStateIsSound(events);
    HandledProvider(s, text);
    OneMessagePerConnection(s.table.value.connections, s.ids, text);
  }

  /** The texts of the broadcasts. */
  function Broadcasts(events: seq<Event>): seq<string> {
    if events == [] then []
    else
      var last := events[|events| - 1];
      Broadcasts(events[..|events| - 1]) + if last.Broadcast? then [last.data] else []
  }

  /** Whatever comes in between, the batch is that of the broadcasts. */
  lemma {:induction false} BatchIsOfBroadcasts(events: seq<Event>)
    ensures HandledAll(events).batch == DeliverAll(Broadcasts(events))
    decreases |events|
  {
    hide Load, Deliver, Get, Value.ToString, SymbolsOf, Insert;
    if events != [] {
      var front, last := events[..|events| - 1], events[|events| - 1];
      BatchIsOfBroadcasts(front);
      if last.Broadcast? {
        HandledBroadcast(HandledAll(front), last.data);
        BroadcastUnloaded(HandledAll(front), last.data);
        assert Broadcasts(events) == Broadcasts(front) + [last.data];
        assert (Broadcasts(front) + [last.data])[..|Broadcasts(front)|] == Broadcasts(front);
      } else {
        assert Broadcasts(events) == Broadcasts(front) + [] == Broadcasts(front);
      }
    }
  }

  /** The message records this symbol. */
  predicate Records(s: State, e: Event, symbol: string) {
    e.AddProvider? && s.table.Some? && Load(e.payload).Done? && symbol in SymbolsOf(Load(e.payload).value)
  }

  /** The server gets past these messages. */
  ghost predicate GetsPast(events: seq<Event>, n: nat)
    requires n <= |events|
  {
    forall k :: 0 <= k < n ==> !Stops(HandledAll(events[..k]), events[k])
  }

  lemma NoEvents(events: seq<Event>)
    ensures HandledAll(events[..0]) == START && GetsPast(events, 0)
  {
  }

  lemma StateAfter(events: seq<Event>, n: nat)
    requires n < |events|
    ensures HandledAll(events[..n + 1]) == Handled(HandledAll(events[..n]), events[n])
  {
    hide Handled;
    assert events[..n + 1][..n] == events[..n];
  }

  /** A symbol is recorded exactly if some provider's message recorded it while there was an endpoint. */
  lemma {:induction false} RecordedIff(events: seq<Event>, n: nat, symbol: string)
    requires n <= |events|
    ensures symbol in HandledAll(events[..n]).symbols
       <==> exists k :: 0 <= k < n && Records(HandledAll(events[..k]), events[k], symbol)
    decreases n
  {
    hide Handled, HandledAll, Records;
    if n == 0 {
      NoEvents(events);
    } else {
      RecordedIff(events, n - 1, symbol);
      StateAfter(events, n - 1);
      RecordsStep(HandledAll(events[..n - 1]), events[n - 1], symbol);
    }
  }

  lemma RecordsStep(s: State, e: Event, symbol: string)
    requires Ascending(s.ids)
    ensures symbol in Handled(s, e).symbols <==> symbol in s.symbols || Records(s, e, symbol)
  {
    hide Load, Deliver, Get, Value.ToString, SymbolsOf, Insert, ToEach;
  }

  /** The aggregators registered since the registry was last cleared: those whose first connection
      came about. */
  function Registered(events: seq<Event>): nat {
    if events == [] then 0
    else
      var front, last := events[..|events| - 1], events[|events| - 1];
      match last
      case AddAggregator(text, first, _) => Registered(front) + Bit(first && Load(text).Done?)
      case ClearAggregator(failing) => if CanClear(HandledAll(front).ids, failing) then 0 else Registered(front)
      case _ => Registered(front)
  }

  lemma {:induction false} InsertLength(ids: seq<int>, id: int)
    requires Ascending(ids)
    ensures |Insert(ids, id)| == |ids| + Bit(id !in ids)
  {
    if ids != [] && id > ids[0] {
      InsertLength(ids[1..], id);
      assert ids == [ids[0]] + ids[1..];
    }
  }

  /** Every one of them has one id, and nobody else has: what else is registered is at most one -1. */
  lemma {:induction false} OneIdPerAggregator(events: seq<Event>)
    ensures var ids := HandledAll(events).ids;
            |ids| == Registered(events) + Bit(-1 in ids)
    decreases |events|
  {
    hide Load, Deliver, Get, Value.ToString, SymbolsOf, ToEach, Insert, CanClear;
    if events != [] {
      var front, last := events[..|events| - 1], events[|events| - 1];
      OneIdPerAggregator(front);
      EveryStateIsSound(front);
      var s := HandledAll(front);
      if last.AddAggregator? && Load(last.payload).Done? {
        HandledAggregator(s, last.payload, last.first, last.second);
        InsertLength(s.ids, if !last.first then -1 else if s.table.Some? then s.table.value.nextId else 0);
      }
    }
  }
}
