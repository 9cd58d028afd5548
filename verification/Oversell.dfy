/** How far concurrent orders can drive the stock of a product below zero. */
module Oversell {
  import opened Options
  import opened Names
  import opened Sums
  import opened Orders

  /** Calls past the stock check that have not decremented the stock yet. */
  predicate Committed(c: Call, p: string) {
    (c.Checked? || c.Created?) && c.input.productID == p
  }

  function InFlight(calls: map<nat, Call>, p: string): set<nat> {
    set id | id in calls && Committed(calls[id], p)
  }

  /** What a call in flight will take off the stock; one with a negative quantity takes nothing. */
  function Claim(calls: map<nat, Call>, id: nat, p: string): int {
    if id in calls && Committed(calls[id], p) && calls[id].input.quantity > 0 then calls[id].input.quantity else 0
  }

  ghost function Claims(calls: map<nat, Call>, p: string): int {
    Sum(calls.Keys, id => Claim(calls, id, p))
  }

  lemma ClaimsAfter(calls: map<nat, Call>, id: nat, c: Call, p: string)
    ensures Claims(calls[id := c], p) == Claims(calls, p) - Claim(calls, id, p) + Claim(calls[id := c], id, p)
  {
    var next := calls[id := c];
    var f, g := (k: nat) => Claim(calls, k, p), (k: nat) => Claim(next, k, p);
    if id in calls {
      assert next.Keys == calls.Keys;
      SumUpdate(calls.Keys, f, g, id);
    } else {
      assert next.Keys == calls.Keys + {id};
      SumInsert(calls.Keys, f, g, id);
    }
  }

  ghost predicate NonNegative(choices: seq<Choice>) {
    forall i :: 0 <= i < |choices| && choices[i].Start? ==> choices[i].input.quantity >= 0
  }

  /** At no point of the run are more than `n` calls for `p` past the stock check and before the decrement. */
  ghost predicate AtMost(s0: StoreState, choices: seq<Choice>, p: string, n: nat) {
    forall k :: 0 <= k <= |choices| ==> |InFlight(Run(s0, choices[..k]).calls, p)| <= n
  }

  function StockAfter(s0: StoreState, choices: seq<Choice>, p: string): int {
    var products := Run(s0, choices).store.products;
    if p in products then products[p].stock else 0
  }

  /** The largest stock of `p` along the run, which negative quantities can raise above the initial one. */
  ghost predicate IsPeak(s0: StoreState, choices: seq<Choice>, p: string, peak: int) {
    && (forall k :: 0 <= k <= |choices| ==> StockAfter(s0, choices[..k], p) <= peak)
    && exists k :: 0 <= k <= |choices| && StockAfter(s0, choices[..k], p) == peak
  }

  ghost predicate Below(s0: StoreState, choices: seq<Choice>, p: string, peak: int) {
    forall k :: 0 <= k <= |choices| ==> StockAfter(s0, choices[..k], p) <= peak
  }

  /** What is claimed is bounded call by call, and the stock that would remain is bounded below. */
  ghost predicate StockInv(w: World, p: string, peak: int, n: nat) {
    && p in w.store.products
    && w.store.products[p].stock <= peak
    && (forall id :: id in InFlight(w.calls, p) ==> w.calls[id].input.quantity <= peak)
    && w.store.products[p].stock - Claims(w.calls, p) >= peak - n * peak
  }

  lemma ClaimsBounded(w: World, p: string, peak: int, n: nat)
    requires StockInv(w, p, peak, n) && peak >= 0
    ensures 0 <= Claims(w.calls, p) <= |InFlight(w.calls, p)| * peak
  {
    SumBound(w.calls.Keys, InFlight(w.calls, p), id => Claim(w.calls, id, p), peak);
    SumNonNegative(w.calls.Keys, id => Claim(w.calls, id, p));
  }

  lemma {:induction false} SumNonNegative<K>(s: set<K>, f: K -> int)
    requires forall x :: x in s ==> f(x) >= 0
    ensures Sum(s, f) >= 0
  {
    if s != {} {
      var x :| x in s;
      SumRemove(s, f, x);
      SumNonNegative(s - {x}, f);
    }
  }

  lemma {:induction false} MultipleGrows(k: nat, n: nat, peak: int)
    requires k + 1 <= n && peak >= 0
    ensures k * peak <= n * peak - peak
  {
    if k + 1 < n {
      MultipleGrows(k, n - 1, peak);
      assert n * peak == (n - 1) * peak + peak;
    } else {
      assert n * peak == k * peak + peak;
    }
  }

  /** Passing the check is the one step that adds a claim; the stock read covers it, older claims are at most n - 1. */
  lemma CheckKeepsInv(w: World, id: nat, uuid: string, p: string, peak: int, n: nat)
    requires StockInv(w, p, peak, n) && peak >= 0 && id in w.calls && w.calls[id].Found?
    requires |InFlight(Next(w, Step(id, uuid)).calls, p)| <= n
    ensures StockInv(Next(w, Step(id, uuid)), p, peak, n)
  {
    var next := Next(w, Step(id, uuid));
    ClaimsAfter(w.calls, id, next.calls[id], p);
    if Committed(next.calls[id], p) {
      assert InFlight(next.calls, p) == InFlight(w.calls, p) + {id};
      var k := |InFlight(w.calls, p)|;
      ClaimsBounded(w, p, peak, n);
      MultipleGrows(k, n, peak);
      assert next.store == w.store;
      assert Claim(w.calls, id, p) == 0;
    } else {
      assert InFlight(next.calls, p) == InFlight(w.calls, p);
    }
  }

  lemma StepKeepsInv(w: World, id: nat, uuid: string, p: string, peak: int, n: nat)
    requires StockInv(w, p, peak, n) && peak >= 0 && id in w.calls && CallsKnowProducts(w)
    requires |InFlight(Next(w, Step(id, uuid)).calls, p)| <= n
    requires p in Next(w, Step(id, uuid)).store.products ==> Next(w, Step(id, uuid)).store.products[p].stock <= peak
    ensures StockInv(Next(w, Step(id, uuid)), p, peak, n)
  {
    var next := Next(w, Step(id, uuid));
    if next != w {
      if w.calls[id].Found? {
        CheckKeepsInv(w, id, uuid, p, peak, n);
      } else {
        ClaimsAfter(w.calls, id, next.calls[id], p);
        assert InFlight(next.calls, p) <= InFlight(w.calls, p);
      }
    }
  }

  lemma StartKeepsInv(w: World, id: nat, input: Input, p: string, peak: int, n: nat)
    requires StockInv(w, p, peak, n) && id !in w.calls
    ensures StockInv(w.(calls := w.calls[id := Asked(input)]), p, peak, n)
  {
    var next := w.(calls := w.calls[id := Asked(input)]);
    ClaimsAfter(w.calls, id, Asked(input), p);
    assert InFlight(next.calls, p) == InFlight(w.calls, p);
  }

  lemma StartInv(s0: StoreState, p: string, peak: int, n: nat)
    requires p in s0.products && 0 <= s0.products[p].stock <= peak && n > 0
    ensures StockInv(World(s0, map[]), p, peak, n)
  {
    var none: map<nat, Call> := map[];
    assert none.Keys == {} && Claims(none, p) == 0;
    MultipleGrows(0, n, peak);
  }

  lemma {:induction false} InvAlongRun(s0: StoreState, choices: seq<Choice>, p: string, peak: int, n: nat)
    requires p in s0.products && s0.products[p].stock >= 0 && n > 0
    requires Below(s0, choices, p, peak) && AtMost(s0, choices, p, n)
    ensures StockInv(Run(s0, choices), p, peak, n)
  {
    hide Next, StockInv, Claims;
    assert choices[..0] == [] && StockAfter(s0, [], p) == s0.products[p].stock;
    assert choices[..|choices|] == choices;
    if choices == [] {
      StartInv(s0, p, peak, n);
    } else {
      var init, c := choices[..|choices| - 1], choices[|choices| - 1];
      assert forall k :: 0 <= k <= |init| ==> init[..k] == choices[..k];
      InvAlongRun(s0, init, p, peak, n);
      CatalogueStays(s0, init);
      CatalogueStays(s0, choices);
      ChoiceKeepsInv(Run(s0, init), c, p, peak, n);
    }
  }

  lemma ChoiceKeepsInv(w: World, c: Choice, p: string, peak: int, n: nat)
    requires StockInv(w, p, peak, n) && peak >= 0 && CallsKnowProducts(w)
    requires |InFlight(Next(w, c).calls, p)| <= n
    requires p in Next(w, c).store.products ==> Next(w, c).store.products[p].stock <= peak
    ensures StockInv(Next(w, c), p, peak, n)
  {
    hide StockInv, Claims, InFlight;
    match c
    case Start(id, input) =>
      if id !in w.calls {
        StartKeepsInv(w, id, input, p, peak, n);
      }
    case Step(id, uuid) =>
      if id in w.calls {
        StepKeepsInv(w, id, uuid, p, peak, n);
      }
  }

  /** If no call ever passes the check, the stock stays as it is. */
  lemma {:induction false} IdleStock(s0: StoreState, choices: seq<Choice>, p: string)
    requires p in s0.products && AtMost(s0, choices, p, 0)
    ensures StockAfter(s0, choices, p) == s0.products[p].stock
  {
    if choices != [] {
      var init := choices[..|choices| - 1];
      assert forall k :: 0 <= k <= |init| ==> init[..k] == choices[..k];
      IdleStock(s0, init, p);
      CatalogueStays(s0, init);
      var w, c := Run(s0, init), choices[|choices| - 1];
      assert InFlight(w.calls, p) == {} by { assert |InFlight(Run(s0, choices[..|init|]).calls, p)| <= 0; }
      if c.Step? && c.id in w.calls {
        assert c.id !in InFlight(w.calls, p);
      }
    }
  }

  /**
   With at most n calls in flight past the stock check and a stock that is not negative at first, the stock never falls
   below -(n - 1) times the largest stock along the run, whatever the interleaving and the quantities.
   */
  lemma StockLowerBound(s0: StoreState, choices: seq<Choice>, p: string, peak: int, n: nat)
    requires p in s0.products && s0.products[p].stock >= 0
    requires IsPeak(s0, choices, p, peak) && AtMost(s0, choices, p, n)
    ensures p in Run(s0, choices).store.products
    ensures Run(s0, choices).store.products[p].stock >= -(n - 1) * peak
  {
    hide Run, AtMost, IsPeak, StockInv;
    FinalStock(s0, choices, p);
    if n == 0 {
      IdleStock(s0, choices, p);
      PeakOfIdle(s0, choices, p, peak);
    } else {
      PeakIsAbove(s0, choices, p, peak);
      InvAlongRun(s0, choices, p, peak, n);
      BoundFromInv(Run(s0, choices), p, peak, n);
    }
  }

  lemma FinalStock(s0: StoreState, choices: seq<Choice>, p: string)
    requires p in s0.products
    ensures p in Run(s0, choices).store.products
    ensures StockAfter(s0, choices, p) == Run(s0, choices).store.products[p].stock
  {
    CatalogueStays(s0, choices);
  }

  lemma PeakIsAbove(s0: StoreState, choices: seq<Choice>, p: string, peak: int)
    requires p in s0.products && IsPeak(s0, choices, p, peak)
    ensures Below(s0, choices, p, peak) && s0.products[p].stock <= peak
  {
    assert choices[..0] == [] && StockAfter(s0, choices[..0], p) == s0.products[p].stock;
  }

  lemma BoundFromInv(w: World, p: string, peak: int, n: nat)
    requires StockInv(w, p, peak, n) && peak >= 0
    ensures w.store.products[p].stock >= -(n - 1) * peak
  {
    hide InFlight;
    ClaimsBounded(w, p, peak, n);
    assert -(n - 1) * peak == peak - n * peak;
  }

  lemma PeakOfIdle(s0: StoreState, choices: seq<Choice>, p: string, peak: int)
    requires p in s0.products && IsPeak(s0, choices, p, peak) && AtMost(s0, choices, p, 0)
    ensures peak == s0.products[p].stock
  {
    var k :| 0 <= k <= |choices| && StockAfter(s0, choices[..k], p) == peak;
    assert forall j :: 0 <= j <= k ==> choices[..k][..j] == choices[..j];
    IdleStock(s0, choices[..k], p);
  }

  lemma {:induction false} StartedNonNegative(s0: StoreState, choices: seq<Choice>)
    requires NonNegative(choices)
    ensures forall id :: id in Run(s0, choices).calls && !Run(s0, choices).calls[id].Answered? ==>
              Run(s0, choices).calls[id].input.quantity >= 0
  {
    if choices != [] {
      StartedNonNegative(s0, choices[..|choices| - 1]);
    }
  }

  lemma {:induction false} StockOnlyFalls(s0: StoreState, choices: seq<Choice>, p: string)
    requires p in s0.products && NonNegative(choices)
    ensures StockAfter(s0, choices, p) <= s0.products[p].stock
  {
    if choices != [] {
      var init := choices[..|choices| - 1];
      StockOnlyFalls(s0, init, p);
      StartedNonNegative(s0, init);
      CatalogueStays(s0, init);
    }
  }

  /** Without negative quantities the largest stock is the initial one. */
  lemma InitialIsPeak(s0: StoreState, choices: seq<Choice>, p: string)
    requires p in s0.products && NonNegative(choices)
    ensures IsPeak(s0, choices, p, s0.products[p].stock)
  {
    forall k | 0 <= k <= |choices| ensures StockAfter(s0, choices[..k], p) <= s0.products[p].stock {
      StockOnlyFalls(s0, choices[..k], p);
    }
    assert choices[..0] == [] && StockAfter(s0, choices[..0], p) == s0.products[p].stock;
  }

  /** So with S0 items at the start and non-negative quantities the stock never falls below -(n - 1) * S0. */
  lemma InitialStockBound(s0: StoreState, choices: seq<Choice>, p: string, n: nat)
    requires p in s0.products && s0.products[p].stock >= 0
    requires NonNegative(choices) && AtMost(s0, choices, p, n)
    ensures p in Run(s0, choices).store.products
    ensures Run(s0, choices).store.products[p].stock >= -(n - 1) * s0.products[p].stock
  {
    InitialIsPeak(s0, choices, p);
    StockLowerBound(s0, choices, p, s0.products[p].stock, n);
  }

  lemma {:induction false} PeakExists(s0: StoreState, choices: seq<Choice>, p: string) returns (peak: int)
    ensures IsPeak(s0, choices, p, peak)
  {
    assert choices[..|choices|] == choices;
    if choices == [] {
      peak := StockAfter(s0, choices, p);
    } else {
      var init := choices[..|choices| - 1];
      peak := PeakExists(s0, init, p);
      assert forall k :: 0 <= k <= |init| ==> init[..k] == choices[..k];
      if peak < StockAfter(s0, choices, p) {
        peak := StockAfter(s0, choices, p);
      }
    }
  }

  /** One call at a time never oversells, whatever the quantities. */
  lemma SerialRunsNeverOversell(s0: StoreState, choices: seq<Choice>, p: string)
    requires p in s0.products && s0.products[p].stock >= 0 && AtMost(s0, choices, p, 1)
    ensures p in Run(s0, choices).store.products && Run(s0, choices).store.products[p].stock >= 0
  {
    var peak := PeakExists(s0, choices, p);
    StockLowerBound(s0, choices, p, peak, 1);
  }

  // ---- The bound is attained -----------------------------------------------------------------------------

  /** `n` calls, each for all of the stock, all get past the check. */
  function CheckAll(input: Input, n: nat): seq<Choice> {
    if n == 0 then []
    else CheckAll(input, n - 1) + [Start(n - 1, input), Step(n - 1, ""), Step(n - 1, "")]
  }

  /** Then the first `m` of them create their order, under ids that begin with `pad`, and take it off the stock. */
  function DeliverAll(input: Input, n: nat, m: nat, pad: string): seq<Choice> {
    if m == 0 then CheckAll(input, n)
    else DeliverAll(input, n, m - 1, pad) + [Step(m - 1, pad + Decimal(m - 1)), Step(m - 1, "")]
  }

  lemma RunOneMore(s0: StoreState, choices: seq<Choice>, c: Choice)
    ensures Run(s0, choices + [c]) == Next(Run(s0, choices), c)
  {
    assert (choices + [c])[..|choices|] == choices;
  }

  lemma CheckedOne(w: World, input: Input, id: nat)
    requires id !in w.calls
    requires input.productID in w.store.products && input.quantity == w.store.products[input.productID].stock
    ensures var next := Next(Next(Next(w, Start(id, input)), Step(id, "")), Step(id, ""));
            next.store == w.store && next.calls == w.calls[id := Checked(input)]
  {
    var a := Next(w, Start(id, input));
    assert a.calls[id] == Asked(input);
    var b := Next(a, Step(id, ""));
    assert b.calls[id] == Found(input);
  }

  lemma {:induction false} AllChecked(s0: StoreState, input: Input, n: nat)
    requires input.productID in s0.products && input.quantity == s0.products[input.productID].stock
    ensures var w := Run(s0, CheckAll(input, n));
            w.store == s0 && (forall id: nat :: id in w.calls <==> id < n)
            && forall id :: id in w.calls ==> w.calls[id] == Checked(input)
  {
    hide Next;
    if n > 0 {
      AllChecked(s0, input, n - 1);
      var id: nat, cs := n - 1, CheckAll(input, n - 1);
      var a, b := cs + [Start(id, input)], cs + [Start(id, input), Step(id, "")];
      RunOneMore(s0, cs, Start(id, input));
      RunOneMore(s0, a, Step(id, ""));
      assert a + [Step(id, "")] == b;
      RunOneMore(s0, b, Step(id, ""));
      assert b + [Step(id, "")] == CheckAll(input, n);
      CheckedOne(Run(s0, cs), input, id);
    }
  }

  /** A string longer than all of the keys. */
  lemma {:induction false} LongerThanAll(keys: set<string>) returns (pad: string)
    ensures forall k :: k in keys ==> |k| < |pad|
  {
    if keys == {} {
      pad := "";
    } else {
      var k :| k in keys;
      pad := LongerThanAll(keys - {k});
      pad := k + pad + "x";
    }
  }

  /** An id handed out by one of the first `m` deliveries. */
  ghost predicate HandedOut(k: string, pad: string, m: nat) {
    exists i: nat :: i < m && k == pad + Decimal(i)
  }

  lemma NewId(pad: string, m: nat)
    ensures !HandedOut(pad + Decimal(m), pad, m)
    ensures forall k :: HandedOut(k, pad, m + 1) <==> HandedOut(k, pad, m) || k == pad + Decimal(m)
  {
    hide Decimal;
    if HandedOut(pad + Decimal(m), pad, m) {
      var i: nat :| i < m && pad + Decimal(m) == pad + Decimal(i);
      assert (pad + Decimal(m))[|pad|..] == Decimal(m) && (pad + Decimal(i))[|pad|..] == Decimal(i);
      DecimalInjective(i, m);
    }
    forall k ensures HandedOut(k, pad, m + 1) <==> HandedOut(k, pad, m) || k == pad + Decimal(m) {
      if HandedOut(k, pad, m + 1) {
        var i: nat :| i < m + 1 && k == pad + Decimal(i);
        assert i < m || i == m;
      }
      if HandedOut(k, pad, m) {
        var i: nat :| i < m && k == pad + Decimal(i);
        assert i < m + 1;
      }
      assert m < m + 1;
    }
  }

  /** The orders that `m` deliveries leave behind. */
  ghost predicate Delivered(w: World, s0: StoreState, input: Input, n: nat, m: nat, pad: string) {
    && (forall k :: k in w.store.orders ==> |k| < |pad| || HandedOut(k, pad, m))
    && input.productID in w.store.products && input.productID in s0.products
    && w.store.products[input.productID].stock == s0.products[input.productID].stock - m * input.quantity
    && (forall id: nat :: m <= id < n ==> id in w.calls && w.calls[id] == Checked(input))
  }

  lemma DeliveredOne(w: World, input: Input, id: nat, uuid: string)
    requires id in w.calls && w.calls[id] == Checked(input) && uuid !in w.store.orders
    requires input.productID in w.store.products
    ensures var order := OrderFor(w.store, input);
            var next := Next(Next(w, Step(id, uuid)), Step(id, ""));
            next.calls == w.calls[id := Answered(Placed(order))]
            && next.store == Decrement(w.store.(orders := w.store.orders[uuid := order]), input.productID,
              input.quantity)
  {
    var order := OrderFor(w.store, input);
    assert Next(w, Step(id, uuid)) ==
           World(w.store.(orders := w.store.orders[uuid := order]), w.calls[id := Created(input, order)]);
  }

  lemma DeliverOne(w: World, s0: StoreState, input: Input, n: nat, m: nat, pad: string)
    requires m < n && Delivered(w, s0, input, n, m, pad)
    ensures Delivered(Next(Next(w, Step(m, pad + Decimal(m))), Step(m, "")), s0, input, n, m + 1, pad)
  {
    hide Next, HandedOut, Decimal;
    NewId(pad, m);
    DeliveredOne(w, input, m, pad + Decimal(m));
    assert (m + 1) * input.quantity == m * input.quantity + input.quantity;
  }

  lemma {:induction false} AllDelivered(s0: StoreState, input: Input, n: nat, m: nat, pad: string)
    requires input.productID in s0.products && input.quantity == s0.products[input.productID].stock
    requires (forall k :: k in s0.orders ==> |k| < |pad|) && m <= n
    ensures Delivered(Run(s0, DeliverAll(input, n, m, pad)), s0, input, n, m, pad)
  {
    hide Next, HandedOut, Decimal;
    if m == 0 {
      AllChecked(s0, input, n);
    } else {
      AllDelivered(s0, input, n, m - 1, pad);
      var cs := DeliverAll(input, n, m - 1, pad);
      var first := Step(m - 1, pad + Decimal(m - 1));
      var a := cs + [first];
      RunOneMore(s0, cs, first);
      RunOneMore(s0, a, Step(m - 1, ""));
      assert a + [Step(m - 1, "")] == DeliverAll(input, n, m, pad);
      DeliverOne(Run(s0, cs), s0, input, n, m - 1, pad);
    }
  }

  ghost predicate StartsBelow(choices: seq<Choice>, n: nat) {
    forall i :: 0 <= i < |choices| && choices[i].Start? ==> choices[i].id < n
  }

  lemma {:induction false} CallsBelow(s0: StoreState, choices: seq<Choice>, n: nat)
    requires StartsBelow(choices, n)
    ensures forall id :: id in Run(s0, choices).calls ==> id < n
  {
    if choices != [] {
      CallsBelow(s0, choices[..|choices| - 1], n);
    }
  }

  lemma {:induction false} SmallSet(s: set<nat>, n: nat)
    requires forall x :: x in s ==> x < n
    ensures |s| <= n
  {
    if n == 0 {
      assert s == {};
    } else {
      SmallSet(s - {n - 1}, n - 1);
      assert s <= s - {n - 1} + {n - 1};
    }
  }

  lemma FewCalls(s0: StoreState, choices: seq<Choice>, p: string, n: nat)
    requires StartsBelow(choices, n)
    ensures AtMost(s0, choices, p, n)
  {
    forall k | 0 <= k <= |choices| ensures |InFlight(Run(s0, choices[..k]).calls, p)| <= n {
      CallsBelow(s0, choices[..k], n);
      SmallSet(InFlight(Run(s0, choices[..k]).calls, p), n);
    }
  }

  lemma {:induction false} CheckAllStarts(input: Input, n: nat)
    ensures forall c :: c in CheckAll(input, n) && c.Start? ==> c.id < n && c.input == input
  {
    if n > 0 {
      CheckAllStarts(input, n - 1);
    }
  }

  lemma {:induction false} DeliverAllStarts(input: Input, n: nat, m: nat, pad: string)
    ensures forall c :: c in DeliverAll(input, n, m, pad) && c.Start? ==> c.id < n && c.input == input
  {
    if m == 0 {
      CheckAllStarts(input, n);
    } else {
      DeliverAllStarts(input, n, m - 1, pad);
    }
  }

  ghost predicate Attains(s0: StoreState, choices: seq<Choice>, p: string, n: nat) {
    && NonNegative(choices) && AtMost(s0, choices, p, n)
    && p in s0.products && p in Run(s0, choices).store.products
    && Run(s0, choices).store.products[p].stock == -(n - 1) * s0.products[p].stock
  }

  /**
   The lower bound is exact: whatever the store holds, n concurrent calls for the whole stock bring it to -(n - 1) * S0.
   */
  lemma LowerBoundAttained(s0: StoreState, p: string, n: nat)
    requires p in s0.products && s0.products[p].stock >= 0
    ensures exists choices :: Attains(s0, choices, p, n)
  {
    var start := s0.products[p].stock;
    var input := Input(p, start);
    var pad := LongerThanAll(s0.orders.Keys);
    var choices := DeliverAll(input, n, n, pad);
    AllDelivered(s0, input, n, n, pad);
    DeliverAllStarts(input, n, n, pad);
    FewCalls(s0, choices, p, n);
    assert start - n * start == -(n - 1) * start;
    assert Attains(s0, choices, p, n);
  }
}
