/**
 Order processing: every tool call looks the product up, reads its stock, creates the order and decrements the stock,
 each in a critical section of its own (the stock is read in none). A run is any interleaving of any number of calls.
 Money is exact, quantities are unbounded integers, and fresh order ids are assumed of the UUID generator.
 */
module Orders {
  import opened Options
  import opened Sums

  datatype Product = Product(price: real, stock: int)

  datatype Order = Order(productID: string, quantity: int, total: real)

  datatype StoreState = StoreState(products: map<string, Product>, orders: map<string, Order>)

  datatype Input = Input(productID: string, quantity: int)

  datatype Answer = NotFound | Insufficient | Placed(order: Order)

  /** Where a call of `process_order` stands. */
  datatype Call =
    | Asked(input: Input)
    | Found(input: Input)
    | Checked(input: Input)
    | Created(input: Input, order: Order)
    | Answered(answer: Answer)

  function Decrement(s: StoreState, id: string, quantity: int): StoreState
    requires id in s.products
  {
    s.(products := s.products[id := s.products[id].(stock := s.products[id].stock - quantity)])
  }

  function OrderFor(s: StoreState, input: Input): Order
    requires input.productID in s.products
  {
    Order(input.productID, input.quantity, s.products[input.productID].price * input.quantity as real)
  }

  /** The next section of a call; `uuid` is the id a created order gets. */
  function Section(s: StoreState, c: Call, uuid: string): (StoreState, Call) {
    match c
    case Asked(input) => (s, if input.productID in s.products then Found(input) else Answered(NotFound))
    case Found(input) =>
      if input.productID !in s.products then (s, Answered(NotFound))
      else (s, if s.products[input.productID].stock < input.quantity then Answered(Insufficient) else Checked(input))
    case Checked(input) =>
      if input.productID !in s.products then (s, Answered(NotFound))
      else
        var order := OrderFor(s, input);
        (s.(orders := s.orders[uuid := order]), Created(input, order))
    case Created(input, order) =>
      if input.productID !in s.products then (s, Answered(NotFound))
      else (Decrement(s, input.productID, input.quantity), Answered(Placed(order)))
    case Answered(_) => (s, c)
  }

  datatype World = World(store: StoreState, calls: map<nat, Call>)

  datatype Choice = Start(id: nat, input: Input) | Step(id: nat, uuid: string)

  /** A step that would create an order under an id already taken does not happen. */
  function Next(w: World, c: Choice): World {
    match c
    case Start(id, input) => if id in w.calls then w else w.(calls := w.calls[id := Asked(input)])
    case Step(id, uuid) =>
      if id !in w.calls || (w.calls[id].Checked? && uuid in w.store.orders) then w
      else
        var (store, call) := Section(w.store, w.calls[id], uuid);
        World(store, w.calls[id := call])
  }

  function Run(s0: StoreState, choices: seq<Choice>): World {
    if choices == [] then World(s0, map[])
    else Next(Run(s0, choices[..|choices| - 1]), choices[|choices| - 1])
  }

  // ---- Products stay; a call past the lookup has one ------------------------------------------------

  predicate Looked(c: Call) {
    c.Found? || c.Checked? || c.Created?
  }

  predicate SameCatalogue(s: StoreState, t: StoreState) {
    s.products.Keys == t.products.Keys && forall p :: p in s.products ==> s.products[p].price == t.products[p].price
  }

  ghost predicate CallsKnowProducts(w: World) {
    forall id :: id in w.calls && Looked(w.calls[id]) ==> w.calls[id].input.productID in w.store.products
  }

  lemma {:induction false} CatalogueStays(s0: StoreState, choices: seq<Choice>)
    ensures SameCatalogue(s0, Run(s0, choices).store)
    ensures CallsKnowProducts(Run(s0, choices))
  {
    if choices != [] {
      CatalogueStays(s0, choices[..|choices| - 1]);
    }
  }

  /** So the error returns after the lookup are never taken: a looked-up product is never missing. */
  lemma LookedUpIsNeverMissing(s0: StoreState, choices: seq<Choice>, id: nat, uuid: string)
    requires id in Run(s0, choices).calls && Looked(Run(s0, choices).calls[id])
    ensures var w := Run(s0, choices); Section(w.store, w.calls[id], uuid).1 != Answered(NotFound)
  {
    CatalogueStays(s0, choices);
  }

  // ---- Conservation of stock -------------------------------------------------------------------------

  function Quantity(orders: map<string, Order>, k: string, p: string): int {
    if k in orders && orders[k].productID == p then orders[k].quantity else 0
  }

  /** Ordered but not yet taken off the stock. */
  function Due(calls: map<nat, Call>, id: nat, p: string): int {
    if id in calls && calls[id].Created? && calls[id].input.productID == p then calls[id].input.quantity else 0
  }

  ghost function Ordered(orders: map<string, Order>, p: string): int {
    Sum(orders.Keys, k => Quantity(orders, k, p))
  }

  ghost function Owed(calls: map<nat, Call>, p: string): int {
    Sum(calls.Keys, id => Due(calls, id, p))
  }

  ghost function Balance(w: World, p: string): int
    requires p in w.store.products
  {
    w.store.products[p].stock + Ordered(w.store.orders, p) - Owed(w.calls, p)
  }

  lemma OwedAfter(calls: map<nat, Call>, id: nat, c: Call, p: string)
    ensures Owed(calls[id := c], p) == Owed(calls, p) - Due(calls, id, p) + Due(calls[id := c], id, p)
  {
    var next := calls[id := c];
    var f, g := (k: nat) => Due(calls, k, p), (k: nat) => Due(next, k, p);
    if id in calls {
      assert next.Keys == calls.Keys;
      SumUpdate(calls.Keys, f, g, id);
    } else {
      assert next.Keys == calls.Keys + {id};
      SumInsert(calls.Keys, f, g, id);
    }
  }

  lemma OrderedAfter(orders: map<string, Order>, uuid: string, order: Order, p: string)
    requires uuid !in orders
    ensures Ordered(orders[uuid := order], p) == Ordered(orders, p)
      + (if order.productID == p then order.quantity else 0)
  {
    var next := orders[uuid := order];
    assert next.Keys == orders.Keys + {uuid};
    SumInsert(orders.Keys, k => Quantity(orders, k, p), k => Quantity(next, k, p), uuid);
  }

  lemma SectionKeepsBalance(w: World, id: nat, uuid: string, p: string)
    requires id in w.calls && p in w.store.products && CallsKnowProducts(w)
    requires w.calls[id].Checked? ==> uuid !in w.store.orders
    ensures p in Next(w, Step(id, uuid)).store.products
    ensures Balance(Next(w, Step(id, uuid)), p) == Balance(w, p)
  {
    var c := w.calls[id];
    var (store, next) := Section(w.store, c, uuid);
    OwedAfter(w.calls, id, next, p);
    if c.Checked? {
      OrderedAfter(w.store.orders, uuid, OrderFor(w.store, c.input), p);
    }
  }

  /**
   In every interleaving, for every product: the stock, plus all that was ordered, minus what is still to be taken off,
   is what it was at the start.
   */
  lemma {:induction false} StockConserved(s0: StoreState, choices: seq<Choice>, p: string)
    requires p in s0.products
    ensures p in Run(s0, choices).store.products
    ensures Balance(Run(s0, choices), p) == s0.products[p].stock + Ordered(s0.orders, p)
  {
    if choices == [] {
      var none: map<nat, Call> := map[];
      assert none.Keys == {} && Owed(none, p) == 0;
    } else {
      var init, c := choices[..|choices| - 1], choices[|choices| - 1];
      var w := Run(s0, init);
      StockConserved(s0, init, p);
      CatalogueStays(s0, init);
      match c
      case Start(id, input) =>
        if id !in w.calls {
          OwedAfter(w.calls, id, Asked(input), p);
        }
      case Step(id, uuid) =>
        if id in w.calls && !(w.calls[id].Checked? && uuid in w.store.orders) {
          SectionKeepsBalance(w, id, uuid, p);
        }
    }
  }

  // ---- Conservation of money -------------------------------------------------------------------------

  function Total(orders: map<string, Order>, k: string): real {
    if k in orders then orders[k].total else 0.0
  }

  ghost function Revenue(orders: map<string, Order>): real {
    RealSum(orders.Keys, k => Total(orders, k))
  }

  function DueValue(calls: map<nat, Call>, id: nat): real {
    if id in calls && calls[id].Created? then calls[id].order.total else 0.0
  }

  ghost function OwedValue(calls: map<nat, Call>): real {
    RealSum(calls.Keys, id => DueValue(calls, id))
  }

  function SoldValue(s0: StoreState, s: StoreState, p: string): real {
    if p in s0.products && p in s.products
    then s.products[p].price * (s0.products[p].stock - s.products[p].stock) as real
    else 0.0
  }

  ghost function Sold(s0: StoreState, s: StoreState): real {
    RealSum(s.products.Keys, p => SoldValue(s0, s, p))
  }

  /** A created order is worth the price of what is still to be taken off. */
  ghost predicate OrdersPriced(w: World) {
    forall id :: id in w.calls && w.calls[id].Created? && w.calls[id].input.productID in w.store.products ==>
      w.calls[id].order == OrderFor(w.store, w.calls[id].input)
  }

  lemma {:induction false} OrdersArePriced(s0: StoreState, choices: seq<Choice>)
    ensures OrdersPriced(Run(s0, choices))
  {
    if choices != [] {
      OrdersArePriced(s0, choices[..|choices| - 1]);
      CatalogueStays(s0, choices[..|choices| - 1]);
    }
  }

  lemma OwedValueAfter(calls: map<nat, Call>, id: nat, c: Call)
    ensures OwedValue(calls[id := c]) == OwedValue(calls) - DueValue(calls, id) + DueValue(calls[id := c], id)
  {
    var next := calls[id := c];
    var f, g := (k: nat) => DueValue(calls, k), (k: nat) => DueValue(next, k);
    if id in calls {
      assert next.Keys == calls.Keys;
      RealSumUpdate(calls.Keys, f, g, id);
    } else {
      assert next.Keys == calls.Keys + {id};
      RealSumInsert(calls.Keys, f, g, id);
    }
  }

  lemma RevenueAfter(orders: map<string, Order>, uuid: string, order: Order)
    requires uuid !in orders
    ensures Revenue(orders[uuid := order]) == Revenue(orders) + order.total
  {
    var next := orders[uuid := order];
    assert next.Keys == orders.Keys + {uuid};
    RealSumInsert(orders.Keys, k => Total(orders, k), k => Total(next, k), uuid);
  }

  lemma SoldAfter(s0: StoreState, s: StoreState, p: string, quantity: int)
    requires p in s.products && p in s0.products
    ensures Sold(s0, Decrement(s, p, quantity)) == Sold(s0, s) + s.products[p].price * quantity as real
  {
    var t := Decrement(s, p, quantity);
    assert t.products.Keys == s.products.Keys;
    RealSumUpdate(s.products.Keys, k => SoldValue(s0, s, k), k => SoldValue(s0, t, k), p);
    var price, before := s.products[p].price, s0.products[p].stock - s.products[p].stock;
    assert (before + quantity) as real == before as real + quantity as real;
    assert price * (before as real + quantity as real) == price * before as real + price * quantity as real;
  }

  lemma SoldIgnoresOrders(s0: StoreState, s: StoreState, orders: map<string, Order>)
    ensures Sold(s0, s.(orders := orders)) == Sold(s0, s)
  {
    var t := s.(orders := orders);
    RealSumSame(s.products.Keys, p => SoldValue(s0, s, p), p => SoldValue(s0, t, p));
  }

  ghost function MoneyBalance(s0: StoreState, w: World): real {
    Revenue(w.store.orders) - OwedValue(w.calls) - Sold(s0, w.store)
  }

  lemma SectionKeepsMoney(s0: StoreState, w: World, id: nat, uuid: string)
    requires id in w.calls && SameCatalogue(s0, w.store) && CallsKnowProducts(w) && OrdersPriced(w)
    requires w.calls[id].Checked? ==> uuid !in w.store.orders
    ensures MoneyBalance(s0, Next(w, Step(id, uuid))) == MoneyBalance(s0, w)
  {
    var c := w.calls[id];
    var (store, next) := Section(w.store, c, uuid);
    OwedValueAfter(w.calls, id, next);
    if c.Checked? {
      RevenueAfter(w.store.orders, uuid, OrderFor(w.store, c.input));
      SoldIgnoresOrders(s0, w.store, store.orders);
    } else if c.Created? {
      SoldAfter(s0, w.store, c.input.productID, c.input.quantity);
    }
  }

  lemma NothingSold(s0: StoreState)
    ensures MoneyBalance(s0, World(s0, map[])) == Revenue(s0.orders)
  {
    RealSumSame(s0.products.Keys, p => SoldValue(s0, s0, p), p => 0.0);
    RealSumZero(s0.products.Keys);
    var none: map<nat, Call> := map[];
    assert none.Keys == {} && OwedValue(none) == 0.0;
  }

  lemma {:induction false} RealSumZero<K>(s: set<K>)
    ensures RealSum(s, (x: K) => 0.0) == 0.0
  {
    if s != {} {
      var x :| x in s;
      RealSumRemove(s, (y: K) => 0.0, x);
      RealSumZero(s - {x});
    }
  }

  /** In every interleaving revenue is accounted for by what was sold and what is still to be taken off the stock. */
  lemma {:induction false} RevenueConserved(s0: StoreState, choices: seq<Choice>)
    ensures MoneyBalance(s0, Run(s0, choices)) == Revenue(s0.orders)
  {
    if choices == [] {
      NothingSold(s0);
    } else {
      var init, c := choices[..|choices| - 1], choices[|choices| - 1];
      var w := Run(s0, init);
      RevenueConserved(s0, init);
      CatalogueStays(s0, init);
      OrdersArePriced(s0, init);
      match c
      case Start(id, input) =>
        if id !in w.calls {
          OwedValueAfter(w.calls, id, Asked(input));
        }
      case Step(id, uuid) =>
        if id in w.calls && !(w.calls[id].Checked? && uuid in w.store.orders) {
          SectionKeepsMoney(s0, w, id, uuid);
        }
    }
  }

  /** When no call is between its order and its decrement, revenue is the value of the stock that is gone. */
  lemma RevenueIsStockSold(s0: StoreState, choices: seq<Choice>)
    requires forall id :: id in Run(s0, choices).calls ==> !Run(s0, choices).calls[id].Created?
    ensures Revenue(Run(s0, choices).store.orders) == Revenue(s0.orders) + Sold(s0, Run(s0, choices).store)
  {
    var w := Run(s0, choices);
    RevenueConserved(s0, choices);
    RealSumSame(w.calls.Keys, id => DueValue(w.calls, id), id => 0.0);
    RealSumZero(w.calls.Keys);
  }
}
