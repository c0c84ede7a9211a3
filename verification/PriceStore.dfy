/** `StorageHttpServer`: the requests it serves and the map of prices it keeps. */
module PriceStore {
  import opened Chars
  import opened Numbers
  import opened Escapes
  import opened OrderedMap
  import opened JsonValue
  import opened JsonGrammar
  import opened JsonDoc
  import opened JsonRoundTrip
  import opened JsonBounds
  import opened JsonCuts
  import opened PriceCodec

  datatype Symbol = Symbol(id: string, name: string)

  type Symbols = seq<Pair<Symbol>>
  type Prices = seq<Pair<Quote>>

  datatype Request = Request(reqMethod: string, uri: string, body: string)

  datatype Response =
    | Ok200(body: string)
    | NotFound(what: string)
    | ServerError(error: Error)
    /** No branch of `onHttp` takes the request. */
    | Unrouted
    /** The string literal `fromJson` throws is no `std::exception` and leaves `onHttp`. */
    | Uncaught

  // Routing

  datatype Route =
    | GetSymbols
    | GetSymbol(id: string)
    | GetPrices
    | GetPrice(id: string)
    | DeletePrices
    | PostPrice(id: string)
    | NoRoute

  predicate StartsWith(uri: string, prefix: string) {
    prefix <= uri
  }

  function RouteOf(req: Request): Route {
    if req.reqMethod == "GET" && req.uri == "/api/symbols" then GetSymbols
    else if req.reqMethod == "GET" && StartsWith(req.uri, "/api/symbols/") then GetSymbol(req.uri[13..])
    else if req.reqMethod == "GET" && req.uri == "/api/prices" then GetPrices
    else if req.reqMethod == "GET" && StartsWith(req.uri, "/api/prices/") then GetPrice(req.uri[12..])
    else if req.reqMethod == "DELETE" && req.uri == "/api/prices" then DeletePrices
    else if req.reqMethod == "POST" && StartsWith(req.uri, "/api/prices/") then PostPrice(req.uri[12..])
    else NoRoute
  }

  // The routes, by method and address

  predicate IsGet(req: Request, address: string) {
    req.reqMethod == "GET" && req.uri == address
  }

  predicate IsPost(req: Request, id: string) {
    req.reqMethod == "POST" && req.uri == "/api/prices/" + id
  }

  predicate IsDelete(req: Request) {
    req.reqMethod == "DELETE" && req.uri == "/api/prices"
  }

  lemma RouteOfPost(req: Request, id: string)
    ensures IsPost(req, id) <==> RouteOf(req) == PostPrice(id)
  {
    if RouteOf(req) == PostPrice(id) {
      assert req.uri == req.uri[..12] + req.uri[12..];
    }
    if IsPost(req, id) {
      assert req.uri[12..] == id;
    }
  }

  lemma RouteOfDelete(req: Request)
    ensures IsDelete(req) <==> RouteOf(req).DeletePrices?
  {
  }

  lemma RouteOfGet(req: Request, id: string)
    ensures IsGet(req, "/api/symbols") <==> RouteOf(req).GetSymbols?
    ensures IsGet(req, "/api/symbols/" + id) <==> RouteOf(req) == GetSymbol(id)
    ensures IsGet(req, "/api/prices") <==> RouteOf(req).GetPrices?
    ensures IsGet(req, "/api/prices/" + id) <==> RouteOf(req) == GetPrice(id)
  {
    assert "/api/prices/"[5] == 'p' && "/api/prices"[5] == 'p' && "/api/symbols/"[5] == 's';
    var a, b := "/api/symbols/" + id, "/api/prices/" + id;
    assert a[..13] == "/api/symbols/" && a[13..] == id;
    assert b[..12] == "/api/prices/" && b[12..] == id;
    if RouteOf(req).GetSymbol? {
      assert req.uri == req.uri[..13] + req.uri[13..];
    }
    if RouteOf(req).GetPrice? {
      assert req.uri == req.uri[..12] + req.uri[12..];
    }
  }

  // The state machine

  function SymbolMembers(s: Symbol): seq<Member> {
    [Pair("id", String(s.id)), Pair("symbolName", String(s.name))]
  }

  function SymbolJson(s: Symbol): Value {
    Object(PutAll([], SymbolMembers(s)))
  }

  function SymbolsJson(ss: Symbols): (r: seq<Value>)
    ensures |r| == |ss| && forall i :: 0 <= i < |ss| ==> r[i] == SymbolJson(ss[i].val)
  {
    if ss == [] then [] else [SymbolJson(ss[0].val)] + SymbolsJson(ss[1..])
  }

  function PricesJson(ps: Prices): (r: seq<Value>)
    ensures |r| == |ps| && forall i :: 0 <= i < |ps| ==> r[i] == QuoteJson(ps[i].val)
  {
    if ps == [] then [] else [QuoteJson(ps[0].val)] + PricesJson(ps[1..])
  }

  /** A received quote under the names of the symbol table. */
  function Named(q: Quote, id: string, s: Symbol): Quote {
    q.(symbol := id, symbolName := s.name)
  }

  /** The request does not make the parser read past the end of its body, where the program's
      behaviour is undefined. */
  predicate InBounds(symbols: Symbols, req: Request) {
    var route := RouteOf(req);
    route.PostPrice? && Find(symbols, route.id).Some? ==> !Decode(req.body).Undefined?
  }

  function Respond(symbols: Symbols, prices: Prices, req: Request): (Prices, Response)
    requires InBounds(symbols, req)
  {
    match RouteOf(req)
    case NoRoute => (prices, Unrouted)
    case GetSymbols => (prices, Ok200(Dump(Array(SymbolsJson(symbols)))))
    case GetSymbol(id) =>
      (prices, match Find(symbols, id) case None => NotFound("") case Some(s) => Ok200(Dump(SymbolJson(s))))
    case GetPrices => (prices, Ok200(Dump(Array(PricesJson(prices)))))
    case GetPrice(id) =>
      (prices,
       if Find(symbols, id).None? then NotFound("symbol not found")
       else match Find(prices, id)
            case None => NotFound("price not found")
            case Some(q) => Ok200(Dump(QuoteJson(q))))
    case DeletePrices => ([], Ok200(""))
    case PostPrice(id) =>
      match Find(symbols, id)
      case None => (prices, NotFound("symbol not found"))
      case Some(s) =>
        match Decode(req.body)
        case Read(q) => (Put(prices, id, Named(q, id, s)), Ok200(""))
        case Failed(e) => (prices, ServerError(e))
        case Rejected => (prices, Uncaught)
  }

  // The server

  class StorageHttpServer {
    const symbols: Symbols
    var prices: Prices

    /** Every stored price belongs to a known symbol and carries that symbol's id and name. */
    ghost predicate Valid()
      reads this
    {
      StoreInvariant(symbols, prices)
    }

    constructor (table: Symbols)
      requires ValidTable(table)
      ensures Valid() && symbols == table && prices == []
    {
      symbols, prices := table, [];
    }

    method OnHttp(req: Request) returns (res: Response)
      requires Valid() && InBounds(symbols, req)
      modifies this
      ensures Valid() && (prices, res) == Respond(symbols, old(prices), req)
    {
      hide StoreInvariant, SymbolsJson, PricesJson, QuoteJson, SymbolJson, Dump, Put, Find, Decode;
      RespondKeepsInvariant(symbols, prices, req);
      if req.reqMethod == "GET" && req.uri == "/api/symbols" {
        res := HandleGetSymbols();
      } else if req.reqMethod == "GET" && StartsWith(req.uri, "/api/symbols/") {
        res := HandleGetSymbolById(req.uri[13..]);
      } else if req.reqMethod == "GET" && req.uri == "/api/prices" {
        res := HandleGetPrices();
      } else if req.reqMethod == "GET" && StartsWith(req.uri, "/api/prices/") {
        res := HandleGetPriceById(req.uri[12..]);
      } else if req.reqMethod == "DELETE" && req.uri == "/api/prices" {
        res := HandleDeletePrices();
      } else if req.reqMethod == "POST" && StartsWith(req.uri, "/api/prices/") {
        res := HandlePostPrice(req.uri[12..], req.body);
      } else {
        res := Unrouted;
      }
    }

    method HandleGetSymbols() returns (res: Response)
      ensures res == Ok200(Dump(Array(SymbolsJson(symbols))))
    {
      hide SymbolJson, Dump;
      var items: seq<Value> := [];
      for i := 0 to |symbols|
        invariant |items| == i
        invariant forall k :: 0 <= k < i ==> items[k] == SymbolJson(symbols[k].val)
      {
        items := items + [SymbolJson(symbols[i].val)];
      }
      assert items == SymbolsJson(symbols);
      res := Ok200(Dump(Array(items)));
    }

    method HandleGetSymbolById(id: string) returns (res: Response)
      ensures res == match Find(symbols, id) case None => NotFound("") case Some(s) => Ok200(Dump(SymbolJson(s)))
    {
      var it := Find(symbols, id);
      if it.Some? {
        res := Ok200(Dump(SymbolJson(it.value)));
      } else {
        res := NotFound("");
      }
    }

    method HandleGetPrices() returns (res: Response)
      ensures res == Ok200(Dump(Array(PricesJson(prices))))
    {
      hide QuoteJson, Dump;
      var items: seq<Value> := [];
      for i := 0 to |prices|
        invariant |items| == i
        invariant forall k :: 0 <= k < i ==> items[k] == QuoteJson(prices[k].val)
      {
        items := items + [QuoteJson(prices[i].val)];
      }
      assert items == PricesJson(prices);
      res := Ok200(Dump(Array(items)));
    }

    method HandleGetPriceById(id: string) returns (res: Response)
      ensures res == if Find(symbols, id).None? then NotFound("symbol not found")
                     else match Find(prices, id)
                          case None => NotFound("price not found")
                          case Some(q) => Ok200(Dump(QuoteJson(q)))
    {
      if Find(symbols, id).None? {
        return NotFound("symbol not found");
      }
      var it := Find(prices, id);
      if it.None? {
        return NotFound("price not found");
      }
      res := Ok200(Dump(QuoteJson(it.value)));
    }

    method HandleDeletePrices() returns (res: Response)
      modifies this
      ensures prices == [] && res == Ok200("")
    {
      prices := [];
      res := Ok200("");
    }

    method HandlePostPrice(id: string, body: string) returns (res: Response)
      requires Find(symbols, id).Some? ==> !Decode(body).Undefined?
      modifies this
      ensures match Find(symbols, id)
              case None => prices == old(prices) && res == NotFound("symbol not found")
              case Some(s) =>
                match Decode(body)
                case Read(q) => prices == Put(old(prices), id, Named(q, id, s)) && res == Ok200("")
                case Failed(e) => prices == old(prices) && res == ServerError(e)
                case Rejected => prices == old(prices) && res == Uncaught
    {
      var symbolIt := Find(symbols, id);
      if symbolIt.None? {
        return NotFound("symbol not found");
      }
      var price := new Price();
      var decoded := price.FromJson(body);
      match decoded {
        case Failed(e) => return ServerError(e);
        case Rejected => return Uncaught;
        case Read(_) =>
      }
      price.symbol := id;
      price.symbolName := symbolIt.value.name;
      prices := Put(prices, price.symbol, price.Fields());
      res := Ok200("");
    }

    /** A whole run from an empty store leaves the replay of its log. */
    method Serve(log: seq<Request>)
      requires Valid() && prices == []
      requires AllInBounds(symbols, log)
      modifies this
      ensures Valid() && prices == Replay(symbols, log)
    {
      for i := 0 to |log|
        invariant Valid() && prices == Replay(symbols, log[..i])
      {
        assert log[..i + 1][..i] == log[..i];
        var _ := OnHttp(log[i]);
      }
      assert log[..|log|] == log;
    }
  }

  // The invariant

  ghost predicate ValidTable(symbols: Symbols) {
    Sorted(symbols) && forall p :: p in symbols ==> p.val.id == p.key
  }

  ghost predicate StoreInvariant(symbols: Symbols, prices: Prices) {
    && ValidTable(symbols) && Sorted(prices)
    && forall p :: p in prices ==>
         && Find(symbols, p.key).Some?
         && p.val.symbol == p.key
         && p.val.symbolName == Find(symbols, p.key).value.name
  }

  lemma RespondKeepsInvariant(symbols: Symbols, prices: Prices, req: Request)
    requires StoreInvariant(symbols, prices) && InBounds(symbols, req)
    ensures StoreInvariant(symbols, Respond(symbols, prices, req).0)
  {
    hide RouteOf, Decode, QuoteJson, Dump;
    var route := RouteOf(req);
    if route.PostPrice? && Find(symbols, route.id).Some? && Decode(req.body).Read? {
      var q := Named(Decode(req.body).quote, route.id, Find(symbols, route.id).value);
      PutSorted(prices, route.id, q);
      PutMembers(prices, route.id, q);
    }
  }

  // Whole runs

  predicate AllInBounds(symbols: Symbols, log: seq<Request>) {
    forall i :: 0 <= i < |log| ==> InBounds(symbols, log[i])
  }

  function Replay(symbols: Symbols, log: seq<Request>): Prices
    requires AllInBounds(symbols, log)
  {
    if log == [] then []
    else Respond(symbols, Replay(symbols, log[..|log| - 1]), log[|log| - 1]).0
  }

  /** A log whose bodies are tidy, well-formed or not, is served without reading out of bounds. */
  lemma TidyLogsAreInBounds(symbols: Symbols, log: seq<Request>)
    requires forall i :: 0 <= i < |log| ==> Tidy(log[i].body)
    ensures AllInBounds(symbols, log)
  {
    hide Load, RouteOf, Find, Tidy;
    forall i | 0 <= i < |log|
      ensures InBounds(symbols, log[i])
    {
      TidyTextsAreReadInBounds(log[i].body);
    }
  }

  /** A body of which only the first characters arrived: the precondition of the store is met unless
      the body ends in a string or with a number. */
  lemma CutBodyIsInBoundsIff(symbols: Symbols, id: string, i: Item, n: nat)
    requires Find(symbols, id).Some? && ValidItem(i) && n <= |ItemText(i)|
    ensures var body := ItemText(i)[..n];
            InBounds(symbols, Request("POST", "/api/prices/" + id, body)) <==> !RunsOut(body)
  {
    hide Load, ItemText, RunsOut, RouteOf;
    RouteOfPost(Request("POST", "/api/prices/" + id, ItemText(i)[..n]), id);
    CutMessageOverrunsIff(i, n);
  }

  /** The literal escapes from a POST for a known id exactly if its body has nothing to load; the
      store is then as it was. */
  lemma UncaughtIff(symbols: Symbols, prices: Prices, id: string, body: string)
    requires InBounds(symbols, Request("POST", "/api/prices/" + id, body))
    ensures var (after, res) := Respond(symbols, prices, Request("POST", "/api/prices/" + id, body));
            && (res == Uncaught <==> Find(symbols, id).Some? && NothingToLoad(body))
            && (res == Uncaught ==> after == prices)
  {
    hide Load, NothingToLoad, RouteOf;
    RouteOfPost(Request("POST", "/api/prices/" + id, body), id);
    LoadsAsNullIff(body);
  }

  /** An empty body does it, and so does `null`. */
  lemma EmptyBodyIsUncaught(symbols: Symbols, prices: Prices, id: string)
    requires Find(symbols, id).Some?
    ensures var uri := "/api/prices/" + id;
            && InBounds(symbols, Request("POST", uri, ""))
            && Respond(symbols, prices, Request("POST", uri, "")) == (prices, Uncaught)
            && InBounds(symbols, Request("POST", uri, "null"))
            && Respond(symbols, prices, Request("POST", uri, "null")) == (prices, Uncaught)
  {
    hide Load, Respond;
    TidyTextsAreReadInBounds("");
    TidyTextsAreReadInBounds("null");
    UncaughtIff(symbols, prices, id, "");
    UncaughtIff(symbols, prices, id, "null");
  }

  /** The price a request stores under `id`, if it is a POST for it that is accepted: what its body
      says, under the names of the symbol table. */
  function Accepted(symbols: Symbols, req: Request, id: string): Option<Quote> {
    if IsPost(req, id) && Find(symbols, id).Some? && Decode(req.body).Read? then
      var q := Decode(req.body).quote;
      Some(Quote(id, Find(symbols, id).value.name, q.price, q.quantity, q.timestamp))
    else None
  }

  /** The request ends the life of whatever is stored under `id`. */
  predicate Overwrites(symbols: Symbols, req: Request, id: string) {
    IsDelete(req) || Accepted(symbols, req, id).Some?
  }

  /** The `i`-th request is the last accepted POST for `id`, and no DELETE came after it. */
  predicate Stands(symbols: Symbols, log: seq<Request>, id: string, i: nat) {
    && i < |log|
    && Accepted(symbols, log[i], id).Some?
    && forall j :: i < j < |log| ==> !Overwrites(symbols, log[j], id)
  }

  /** What one request does to one id. */
  lemma RespondAt(symbols: Symbols, prices: Prices, req: Request, id: string)
    requires InBounds(symbols, req)
    ensures Find(Respond(symbols, prices, req).0, id)
         == if IsDelete(req) then None
            else if Accepted(symbols, req, id).Some? then Some(Accepted(symbols, req, id).value)
            else Find(prices, id)
  {
    hide RouteOf, Decode, Dump;
    RouteOfDelete(req);
    RouteOfPost(req, id);
    var route := RouteOf(req);
    if route.PostPrice? && Find(symbols, route.id).Some? && Decode(req.body).Read? {
      FindPut(prices, route.id, Named(Decode(req.body).quote, route.id, Find(symbols, route.id).value), id);
    }
  }

  /** Only two requests change the store: a DELETE empties it, an accepted POST puts its price under
      its id, and every other request leaves it as it was. */
  lemma OnlyPostAndDeleteChange(symbols: Symbols, prices: Prices, req: Request)
    requires InBounds(symbols, req)
    ensures var (after, res) := Respond(symbols, prices, req);
            && (IsDelete(req) ==> after == [] && res == Ok200(""))
            && (forall id :: Accepted(symbols, req, id).Some?
                         ==> after == Put(prices, id, Accepted(symbols, req, id).value) && res == Ok200(""))
            && (!IsDelete(req) && (forall id :: Accepted(symbols, req, id).None?) ==> after == prices)
  {
    hide RouteOf, Decode, Dump, Put, Find;
    RouteOfDelete(req);
    forall id
      ensures IsPost(req, id) <==> RouteOf(req) == PostPrice(id)
    {
      RouteOfPost(req, id);
    }
    var route := RouteOf(req);
    if route.PostPrice? && Find(symbols, route.id).Some? && Decode(req.body).Read? {
      assert IsPost(req, route.id) && Accepted(symbols, req, route.id).Some?;
    }
  }

  /** `DELETE /api/prices` empties the store, whatever its body. */
  lemma DeleteClears(symbols: Symbols, prices: Prices, body: string)
    ensures var req := Request("DELETE", "/api/prices", body);
            InBounds(symbols, req) && Respond(symbols, prices, req) == ([], Ok200(""))
  {
  }

  /** No handler takes a request exactly if it has none of these addresses under its method. */
  lemma UnroutedIff(symbols: Symbols, prices: Prices, req: Request)
    requires InBounds(symbols, req)
    ensures Respond(symbols, prices, req).1 == Unrouted
       <==> && !IsGet(req, "/api/symbols") && !IsGet(req, "/api/prices") && !IsDelete(req)
            && forall id :: !IsGet(req, "/api/symbols/" + id) && !IsGet(req, "/api/prices/" + id) && !IsPost(req, id)
  {
    hide RouteOf, Decode, Dump, Put, Find, IsGet, IsPost, IsDelete;
    RouteOfDelete(req);
    RouteOfGet(req, "");
    forall id
      ensures IsPost(req, id) <==> RouteOf(req) == PostPrice(id)
      ensures IsGet(req, "/api/symbols/" + id) <==> RouteOf(req) == GetSymbol(id)
      ensures IsGet(req, "/api/prices/" + id) <==> RouteOf(req) == GetPrice(id)
    {
      RouteOfPost(req, id);
      RouteOfGet(req, id);
    }
  }

  /** `GET /api/prices/<id>`: 404 for an unknown id, 404 for a known one without a price, and
      otherwise the text of the stored price. */
  lemma PriceIsShownIffStored(symbols: Symbols, prices: Prices, id: string, body: string)
    ensures var (after, res) := Respond(symbols, prices, Request("GET", "/api/prices/" + id, body));
            && after == prices
            && (Find(symbols, id).None? ==> res == NotFound("symbol not found"))
            && (Find(symbols, id).Some? && Find(prices, id).None? ==> res == NotFound("price not found"))
            && (Find(symbols, id).Some? && Find(prices, id).Some?
                ==> res == Ok200(Dump(QuoteJson(Find(prices, id).value))))
  {
    hide RouteOf, Dump, Find;
    RouteOfGet(Request("GET", "/api/prices/" + id, body), id);
  }

  /** `POST /api/prices/<id>` that stores nothing: 404 for an unknown id, 500 for a conversion error. */
  lemma RefusedPosts(symbols: Symbols, prices: Prices, id: string, body: string)
    ensures var req := Request("POST", "/api/prices/" + id, body);
            && (Find(symbols, id).None? ==>
                  InBounds(symbols, req) && Respond(symbols, prices, req) == (prices, NotFound("symbol not found")))
            && (Find(symbols, id).Some? && Decode(body).Failed? ==>
                  && InBounds(symbols, req)
                  && Respond(symbols, prices, req) == (prices, ServerError(Decode(body).error)))
  {
    hide RouteOf, Decode, Find;
    RouteOfPost(Request("POST", "/api/prices/" + id, body), id);
  }

  /** The store refines its log: an id has a price exactly if an accepted POST for it stands, and it
      is the price of that POST. */
  lemma {:induction false} StoreRefinesLog(symbols: Symbols, log: seq<Request>, id: string, q: Quote)
    requires AllInBounds(symbols, log)
    ensures Find(Replay(symbols, log), id) == Some(q)
       <==> exists i: nat :: Stands(symbols, log, id, i) && Accepted(symbols, log[i], id).value == q
    decreases |log|
  {
    if log == [] {
      assert Replay(symbols, log) == [];
    } else {
      var n := |log| - 1;
      var front, req := log[..n], log[n];
      StoreRefinesLog(symbols, front, id, q);
      RespondAt(symbols, Replay(symbols, front), req, id);
      assert Replay(symbols, log) == Respond(symbols, Replay(symbols, front), req).0;
      hide Respond, Replay, Accepted, IsDelete, Find;
      if Overwrites(symbols, req, id) {
        LastOneStands(symbols, log, id);
      } else {
        StandingPostsAreKept(symbols, log, id, q);
      }
    }
  }

  lemma StandingPostsAreKept(symbols: Symbols, log: seq<Request>, id: string, q: Quote)
    requires log != [] && !Overwrites(symbols, log[|log| - 1], id)
    ensures (exists i: nat :: Stands(symbols, log, id, i) && Accepted(symbols, log[i], id).value == q)
       <==> var front := log[..|log| - 1];
            exists i: nat :: Stands(symbols, front, id, i) && Accepted(symbols, front[i], id).value == q
  {
    hide Accepted, Overwrites;
    forall i: nat
      ensures Stands(symbols, log, id, i) <==> Stands(symbols, log[..|log| - 1], id, i)
    {
      StandsInFront(symbols, log, id, i);
    }
  }

  lemma LastOneStands(symbols: Symbols, log: seq<Request>, id: string)
    requires log != [] && Overwrites(symbols, log[|log| - 1], id)
    ensures forall i: nat :: Stands(symbols, log, id, i) ==> i == |log| - 1
    ensures Stands(symbols, log, id, |log| - 1) <==> !IsDelete(log[|log| - 1])
  {
    hide Decode, Find;
    DeleteIsNoPost(log[|log| - 1], id);
  }

  lemma DeleteIsNoPost(req: Request, id: string)
    ensures !(IsDelete(req) && IsPost(req, id))
  {
  }

  lemma StandsInFront(symbols: Symbols, log: seq<Request>, id: string, i: nat)
    requires log != [] && !Overwrites(symbols, log[|log| - 1], id)
    ensures Stands(symbols, log, id, i) <==> Stands(symbols, log[..|log| - 1], id, i)
  {
    hide Accepted, Overwrites;
    var front := log[..|log| - 1];
    if i < |front| {
      assert front[i] == log[i];
      forall j | i < j < |front|
        ensures Overwrites(symbols, front[j], id) == Overwrites(symbols, log[j], id)
      {
        assert front[j] == log[j];
      }
      if Stands(symbols, front, id, i) {
        forall j | i < j < |log|
          ensures !Overwrites(symbols, log[j], id)
        {
          if j < |front| {
            assert !Overwrites(symbols, front[j], id);
          }
        }
      }
    } else {
      LastIsNoPost(symbols, log, id);
    }
  }

  /** A request that ends no price's life is no accepted POST for it. */
  lemma LastIsNoPost(symbols: Symbols, log: seq<Request>, id: string)
    requires log != [] && !Overwrites(symbols, log[|log| - 1], id)
    ensures !Stands(symbols, log, id, |log| - 1)
  {
    hide Accepted;
  }

  lemma {:induction false} ReplayKeepsInvariant(symbols: Symbols, log: seq<Request>)
    requires ValidTable(symbols) && AllInBounds(symbols, log)
    ensures StoreInvariant(symbols, Replay(symbols, log))
    decreases |log|
  {
    if log != [] {
      var before := Replay(symbols, log[..|log| - 1]);
      ReplayKeepsInvariant(symbols, log[..|log| - 1]);
      RespondKeepsInvariant(symbols, before, log[|log| - 1]);
    }
  }

  // Through text

  /** Posting a price for a known id is accepted, whatever strings the price carries, and what is
      stored is the price at six decimals under the names of the table. */
  lemma PostIsAccepted(symbols: Symbols, prices: Prices, id: string, q: Quote)
    requires Find(symbols, id).Some?
    ensures var req := Request("POST", "/api/prices/" + id, Dump(QuoteJson(q)));
            var stored := Named(Received(q), id, Find(symbols, id).value);
            && InBounds(symbols, req)
            && Accepted(symbols, req, id) == Some(stored)
            && Respond(symbols, prices, req) == (Put(prices, id, stored), Ok200(""))
  {
    hide RouteOf, Dump, Find, Decode, Put;
    RouteOfPost(Request("POST", "/api/prices/" + id, Dump(QuoteJson(q))), id);
    CodecRoundTrip(q);
  }

  lemma GetFindsStored(symbols: Symbols, prices: Prices, id: string, q: Quote)
    requires Find(symbols, id).Some? && Find(prices, id) == Some(q)
    ensures var req := Request("GET", "/api/prices/" + id, "");
            && Respond(symbols, prices, req) == (prices, Ok200(Dump(QuoteJson(q))))
            && Decode(Respond(symbols, prices, req).1.body) == Read(Received(q))
  {
    hide RouteOf, Dump, Find, Decode;
    RouteOfGet(Request("GET", "/api/prices/" + id, ""), id);
    CodecRoundTrip(q);
  }

  /** What a client reads after posting `q`: its price at six decimals, its quantity and its
      timestamp, with the id and name of the table, escaped. */
  function Posted(symbols: Symbols, id: string, q: Quote): Quote
    requires Find(symbols, id).Some?
  {
    Received(Named(Received(q), id, Find(symbols, id).value))
  }

  /** Post, then any requests that neither delete nor post for the same id, then get. */
  lemma PostThenGet(symbols: Symbols, before: seq<Request>, id: string, q: Quote, between: seq<Request>)
    requires Find(symbols, id).Some? && AllInBounds(symbols, before) && AllInBounds(symbols, between)
    requires forall j :: 0 <= j < |between| ==> !Overwrites(symbols, between[j], id)
    ensures var post := Request("POST", "/api/prices/" + id, Dump(QuoteJson(q)));
            AllInBounds(symbols, before + [post] + between)
    ensures var post := Request("POST", "/api/prices/" + id, Dump(QuoteJson(q)));
            var get := Request("GET", "/api/prices/" + id, "");
            var res := Respond(symbols, Replay(symbols, before + [post] + between), get).1;
            res.Ok200? && Decode(res.body) == Read(Posted(symbols, id, q))
  {
    hide Respond, Replay, Accepted, Overwrites, Dump, QuoteJson, Decode;
    var post := Request("POST", "/api/prices/" + id, Dump(QuoteJson(q)));
    var log := before + [post] + between;
    var stored := Named(Received(q), id, Find(symbols, id).value);
    PostIsAccepted(symbols, [], id, q);
    var i := |before|;
    assert log[i] == post;
    forall j | i < j < |log|
      ensures !Overwrites(symbols, log[j], id)
    {
      assert log[j] == between[j - i - 1];
    }
    assert Stands(symbols, log, id, i) && Accepted(symbols, log[i], id).value == stored;
    StoreRefinesLog(symbols, log, id, stored);
    GetFindsStored(symbols, Replay(symbols, log), id, stored);
  }

  /** With a clean table the names come back as they are, and the price is rounded once. */
  lemma PostedWithCleanTable(symbols: Symbols, id: string, q: Quote)
    requires Find(symbols, id).Some? && Clean(id) && Clean(Find(symbols, id).value.name)
    ensures Posted(symbols, id, q)
         == Quote(id, Find(symbols, id).value.name, RoundedFloat(q.price), q.quantity, q.timestamp)
  {
    EscapeClean(id);
    EscapeClean(Find(symbols, id).value.name);
    RoundedFloatText(q.price);
  }

  /** The listing of all prices loads as one item for each stored price, in key order, and every
      item decodes to that price. */
  lemma ListingShowsTheStore(symbols: Symbols, prices: Prices)
    ensures var res := Respond(symbols, prices, Request("GET", "/api/prices", "")).1;
            && res.Ok200? && Load(res.body).Done? && Load(res.body).value.Array?
            && var items := Load(res.body).value.items;
               && |items| == |prices|
               && forall i :: 0 <= i < |prices| ==> QuoteOf(items[i]) == Received(prices[i].val)
  {
    hide RouteOf, QuoteOf;
    RouteOfGet(Request("GET", "/api/prices", ""), "");
    var v := Array(PricesJson(prices));
    assert Respond(symbols, prices, Request("GET", "/api/prices", "")).1 == Ok200(Dump(v));
    forall i | 0 <= i < |prices|
      ensures Canonical(v.items[i]) && QuoteOf(Rounded(v.items[i])) == Received(prices[i].val)
    {
      QuoteJsonIsCanonical(prices[i].val);
      QuoteOfJson(prices[i].val);
    }
    assert Canonical(v);
    LoadInvertsDumpIff(v);
  }

  /** After any run the listing names every id that has a price once, in the order of the keys: the
      first character that differs decides, and a prefix comes first. */
  lemma ListingIsInOrder(symbols: Symbols, log: seq<Request>)
    requires ValidTable(symbols) && AllInBounds(symbols, log)
    ensures var prices := Replay(symbols, log);
            var res := Respond(symbols, prices, Request("GET", "/api/prices", "")).1;
            && res.Ok200? && Load(res.body).Done? && Load(res.body).value.Array?
            && var items := Load(res.body).value.items;
               && |items| == |prices|
               && (forall i :: 0 <= i < |items| ==> QuoteOf(items[i]).symbol == Escape(prices[i].key))
               && (forall i, j :: 0 <= i < j < |items| ==> Precedes(prices[i].key, prices[j].key))
  {
    hide Respond, Load, QuoteOf, Replay, Precedes;
    var prices := Replay(symbols, log);
    ReplayKeepsInvariant(symbols, log);
    ListingShowsTheStore(symbols, prices);
    forall i | 0 <= i < |prices|
      ensures prices[i].val.symbol == prices[i].key
    {
      assert prices[i] in prices;
    }
    forall i, j | 0 <= i < j < |prices|
      ensures Precedes(prices[i].key, prices[j].key)
    {
      LessIff(prices[i].key, prices[j].key);
    }
  }

  lemma SymbolJsonReads(s: Symbol)
    ensures Canonical(SymbolJson(s))
    ensures Get(Rounded(SymbolJson(s)), "id") == String(s.id)
    ensures Get(Rounded(SymbolJson(s)), "symbolName") == String(s.name)
  {
    hide Canonical, CanonicalMembers, PutAll, Find;
    var ps, v := SymbolMembers(s), SymbolJson(s);
    CleanMembersAreCanonical(ps);
    assert |ps[0].key| == 2 && |ps[1].key| == 10;
    LastAssignmentWins([], ps, 0);
    LastAssignmentWins([], ps, 1);
    GetRounded(v, "id");
    GetRounded(v, "symbolName");
  }

  /** The listing of the symbols loads as one item for each, in key order, with its id and name. */
  lemma ListingShowsTheSymbols(symbols: Symbols, prices: Prices)
    ensures var (after, res) := Respond(symbols, prices, Request("GET", "/api/symbols", ""));
            && after == prices && res.Ok200? && Load(res.body).Done? && Load(res.body).value.Array?
            && var items := Load(res.body).value.items;
               && |items| == |symbols|
               && forall i :: 0 <= i < |symbols| ==>
                    && Get(items[i], "id") == String(symbols[i].val.id)
                    && Get(items[i], "symbolName") == String(symbols[i].val.name)
  {
    hide RouteOf, Get;
    RouteOfGet(Request("GET", "/api/symbols", ""), "");
    var v := Array(SymbolsJson(symbols));
    forall i | 0 <= i < |symbols|
      ensures Canonical(v.items[i])
      ensures Get(Rounded(v.items[i]), "id") == String(symbols[i].val.id)
      ensures Get(Rounded(v.items[i]), "symbolName") == String(symbols[i].val.name)
    {
      SymbolJsonReads(symbols[i].val);
    }
    assert Canonical(v);
    LoadInvertsDumpIff(v);
  }

  /** A request for one symbol: its id and name if it is in the table, 404 if not. */
  lemma SymbolIsShownIffKnown(symbols: Symbols, prices: Prices, id: string)
    ensures var (after, res) := Respond(symbols, prices, Request("GET", "/api/symbols/" + id, ""));
            && after == prices
            && (res.Ok200? <==> Find(symbols, id).Some?)
            && (res == NotFound("") <==> Find(symbols, id).None?)
            && (res.Ok200? ==>
                  && Load(res.body).Done?
                  && Get(Load(res.body).value, "id") == String(Find(symbols, id).value.id)
                  && Get(Load(res.body).value, "symbolName") == String(Find(symbols, id).value.name))
  {
    hide RouteOf, Find, Get;
    RouteOfGet(Request("GET", "/api/symbols/" + id, ""), id);
    if Find(symbols, id).Some? {
      SymbolJsonReads(Find(symbols, id).value);
      LoadInvertsDumpIff(SymbolJson(Find(symbols, id).value));
    }
  }

  // Any object as a price

  /** A POST of any object, however it is written, stores what its fields say under the id and name of
      the table, touches no other id, and GET returns it. */
  lemma PostedObjectIsServed(symbols: Symbols, prices: Prices, id: string, d: Doc)
    requires Find(symbols, id).Some? && ValidDoc(d) && d.DObject?
    ensures var post := Request("POST", "/api/prices/" + id, DocText(d));
            var get := Request("GET", "/api/prices/" + id, "");
            && InBounds(symbols, post) && Decode(DocText(d)).Read?
            && var q := Decode(DocText(d)).quote;
               var stored := Quote(id, Find(symbols, id).value.name, q.price, q.quantity, q.timestamp);
               var (after, res) := Respond(symbols, prices, post);
               && HoldsFields(q, d.entries)
               && res == Ok200("") && Find(after, id) == Some(stored)
               && (forall other :: other != id ==> Find(after, other) == Find(prices, other))
               && Respond(symbols, after, get) == (after, Ok200(Dump(QuoteJson(stored))))
               && Decode(Dump(QuoteJson(stored))) == Read(Received(stored))
  {
    hide RouteOf, Dump, Decode, HoldsFields, DocText, Find;
    var post := Request("POST", "/api/prices/" + id, DocText(d));
    RouteOfPost(post, id);
    ObjectIsDecoded(d);
    var q := Decode(DocText(d)).quote;
    var stored := Quote(id, Find(symbols, id).value.name, q.price, q.quantity, q.timestamp);
    forall other
      ensures Find(Put(prices, id, stored), other) == if other == id then Some(stored) else Find(prices, other)
    {
      FindPut(prices, id, stored, other);
    }
    GetFindsStored(symbols, Put(prices, id, stored), id, stored);
  }

  lemma WholePrice(price: Float, n: int64)
    requires IsPrice(price, Integral(n))
    ensures price.neg == (n < 0) && price.mag == (if n < 0 then 0 - n else n as int) as real
    ensures RoundedFloat(price) == price
  {
    hide RoundedFloat;
    var size: nat := if n < 0 then 0 - n else n;
    MillionthsSurvive(n < 0, size * 1000000);
    assert (size * 1000000) as real / 1000000.0 == size as real;
  }

  lemma LastPrice(q: Quote, entries: seq<Entry>, i: nat)
    requires ValidEntries(entries) && IsLastMember(entries, "price", i)
    ensures HoldsFields(q, entries) ==> IsPrice(q.price, ValueOf(entries, i))
  {
    hide KeyOf, ValueOf, ValidEntries, IsText, IsPrice, IsQuantity, IsTimestamp;
  }

  /** A whole price: whatever else the object says, GET returns it as that number exactly. */
  lemma WholePriceIsServed(symbols: Symbols, prices: Prices, id: string, d: Doc, i: nat, n: int64)
    requires Find(symbols, id).Some? && ValidDoc(d) && d.DObject?
    requires IsLastMember(d.entries, "price", i) && ValueOf(d.entries, i) == Integral(n)
    ensures var post := Request("POST", "/api/prices/" + id, DocText(d));
            var get := Request("GET", "/api/prices/" + id, "");
            InBounds(symbols, post)
            && var res := Respond(symbols, Respond(symbols, prices, post).0, get).1;
               && res.Ok200? && Decode(res.body).Read?
               && var price := Decode(res.body).quote.price;
                  price.neg == (n < 0) && price.mag == (if n < 0 then 0 - n else n as int) as real
  {
    hide Respond, InBounds, Decode, DocText, Find, ValueOf, IsLastMember, HoldsFields, RoundedFloat, Dump, QuoteJson;
    PostedObjectIsServed(symbols, prices, id, d);
    LastPrice(Decode(DocText(d)).quote, d.entries, i);
    WholePrice(Decode(DocText(d)).quote.price, n);
  }
}
