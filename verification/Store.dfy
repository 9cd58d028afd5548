/** The in-memory store: products updated in place through shared records, orders and posts kept in maps. */
module Store {
  import opened Options
  import opened Enumerations
  import opened Sums
  import O = Orders

  datatype Post = Post(title: string, content: string, author: string, status: string)

  // ---- A call of process_order that runs alone -------------------------------------------------------

  function Rank(c: O.Call): nat {
    match c
    case Asked(_) => 4
    case Found(_) => 3
    case Checked(_) => 2
    case Created(_, _) => 1
    case Answered(_) => 0
  }

  function Finish(s: O.StoreState, c: O.Call, uuid: string): (O.StoreState, O.Answer)
    decreases Rank(c)
  {
    if c.Answered? then (s, c.answer)
    else
      var (t, next) := O.Section(s, c, uuid);
      Finish(t, next, uuid)
  }

  // ---- Posts ------------------------------------------------------------------------------------------

  function Matching(posts: map<string, Post>, author: string, status: string): set<string> {
    set k | k in posts && (author == "" || posts[k].author == author) && (status == "" || posts[k].status == status)
  }

  function WithStatus(posts: map<string, Post>, status: string): set<string> {
    set k | k in posts && posts[k].status == status
  }

  /** The posts under the given ids, in that order. */
  predicate ListsPosts(posts: map<string, Post>, ids: seq<string>, result: seq<Post>) {
    |result| == |ids| && forall i :: 0 <= i < |ids| ==> ids[i] in posts && result[i] == posts[ids[i]]
  }

  /** No filter lists everything, each filter lists exactly its own, and two filters list what both list. */
  lemma ListingLaws(posts: map<string, Post>, author: string, status: string)
    ensures Matching(posts, "", "") == posts.Keys
    ensures author != "" ==> forall k :: k in Matching(posts, author, "") <==> k in posts && posts[k].author == author
    ensures status != "" ==> forall k :: k in Matching(posts, "", status) <==> k in posts && posts[k].status == status
    ensures Matching(posts, author, status) == Matching(posts, author, "") * Matching(posts, "", status)
  {}

  /** Entry by entry, how many posts have each status that occurs. */
  ghost predicate IsHistogram(posts: map<string, Post>, h: map<string, nat>) {
    forall s :: (s in h <==> WithStatus(posts, s) != {}) && (s in h ==> h[s] == |WithStatus(posts, s)|)
  }

  predicate StatusesGiven(posts: map<string, Post>) {
    forall k :: k in posts ==> posts[k].status != ""
  }

  function Defaulted(status: string): string {
    if status == "" then "draft" else status
  }

  /** The posts after one creation. */
  function Posted(posts: map<string, Post>, uuid: string, input: Post): map<string, Post> {
    posts[uuid := input.(status := Defaulted(input.status))]
  }

  /** A run of creations, each with the id the generator gave it. */
  function PostedAll(posts: map<string, Post>, inputs: seq<(string, Post)>): map<string, Post> {
    if inputs == [] then posts
    else Posted(PostedAll(posts, inputs[..|inputs| - 1]), inputs[|inputs| - 1].0, inputs[|inputs| - 1].1)
  }

  predicate FreshIds(posts: map<string, Post>, inputs: seq<(string, Post)>) {
    && (forall i :: 0 <= i < |inputs| ==> inputs[i].0 !in posts)
    && (forall i, j :: 0 <= i < j < |inputs| ==> inputs[i].0 != inputs[j].0)
  }

  function Ids(inputs: seq<(string, Post)>): set<string> {
    set i | 0 <= i < |inputs| :: inputs[i].0
  }

  lemma LastIdIsNew(posts: map<string, Post>, inputs: seq<(string, Post)>)
    requires inputs != [] && FreshIds(posts, inputs)
    ensures var init, last := inputs[..|inputs| - 1], inputs[|inputs| - 1].0;
            FreshIds(posts, init) && last !in posts && last !in Ids(init) && Ids(inputs) == Ids(init) + {last}
  {}

  lemma PostedOnce(posts: map<string, Post>, before: set<string>, ids: set<string>, uuid: string, input: Post)
    requires StatusesGiven(posts) && posts.Keys == before + ids && uuid !in before && uuid !in ids
    ensures StatusesGiven(Posted(posts, uuid, input))
    ensures |Posted(posts, uuid, input)| == |posts| + 1
    ensures Posted(posts, uuid, input).Keys == before + (ids + {uuid})
  {}

  lemma NoIds(inputs: seq<(string, Post)>)
    requires inputs == []
    ensures Ids(inputs) == {}
  {}

  /** No run of creations leaves a post without status, and none is lost. */
  lemma {:induction false} PostedAllKeepsStatuses(posts: map<string, Post>, inputs: seq<(string, Post)>)
    requires StatusesGiven(posts) && FreshIds(posts, inputs)
    ensures StatusesGiven(PostedAll(posts, inputs))
    ensures |PostedAll(posts, inputs)| == |posts| + |inputs|
    ensures PostedAll(posts, inputs).Keys == posts.Keys + Ids(inputs)
    decreases |inputs|
  {
    hide FreshIds, StatusesGiven, Posted, PostedAll, Ids;
    PostedAllUnfolds(posts, inputs);
    if inputs == [] {
      NoIds(inputs);
    } else {
      var init, last := inputs[..|inputs| - 1], inputs[|inputs| - 1];
      LastIdIsNew(posts, inputs);
      PostedAllKeepsStatuses(posts, init);
      PostedOnce(PostedAll(posts, init), posts.Keys, Ids(init), last.0, last.1);
    }
  }

  lemma PostedAllUnfolds(posts: map<string, Post>, inputs: seq<(string, Post)>)
    ensures inputs == [] ==> PostedAll(posts, inputs) == posts
    ensures inputs != [] ==>
              var init, last := inputs[..|inputs| - 1], inputs[|inputs| - 1];
              PostedAll(posts, inputs) == Posted(PostedAll(posts, init), last.0, last.1)
  {}

  /** Where every post has a status, a histogram entry is the length of the matching listing. */
  lemma HistogramMatchesListing(posts: map<string, Post>, h: map<string, nat>, status: string)
    requires IsHistogram(posts, h) && StatusesGiven(posts) && status in h
    ensures status != "" && h[status] == |Matching(posts, "", status)|
  {
    assert WithStatus(posts, status) != {};
    assert Matching(posts, "", status) == WithStatus(posts, status);
  }

  lemma OneMoreWithStatus(posts: map<string, Post>, k: string, post: Post, s: string)
    requires k !in posts
    ensures WithStatus(posts[k := post], s) == WithStatus(posts, s) + (if s == post.status then {k} else {})
    ensures |WithStatus(posts[k := post], s)| == |WithStatus(posts, s)| + (if s == post.status then 1 else 0)
  {
    assert k !in WithStatus(posts, s);
  }

  /** One more post counts once more under its status. */
  lemma HistogramGrows(posts: map<string, Post>, k: string, post: Post, h: map<string, nat>)
    requires IsHistogram(posts, h) && k !in posts
    ensures IsHistogram(posts[k := post], h[post.status := Entry(h, post.status) + 1])
  {
    hide WithStatus;
    var next, g := posts[k := post], h[post.status := Entry(h, post.status) + 1];
    forall s
      ensures (s in g <==> WithStatus(next, s) != {}) && (s in g ==> g[s] == |WithStatus(next, s)|)
    {
      OneMoreWithStatus(posts, k, post, s);
    }
  }

  function Entry(h: map<string, nat>, s: string): nat {
    if s in h then h[s] else 0
  }

  ghost function EntrySum(h: map<string, nat>): int {
    Sum(h.Keys, s => Entry(h, s))
  }

  lemma EmptyHistogram()
    ensures IsHistogram(map[], map[]) && EntrySum(map[]) == 0
  {
    var none: map<string, nat> := map[];
    assert none.Keys == {};
  }

  lemma EntrySumAfter(h: map<string, nat>, status: string, n: nat)
    ensures EntrySum(h[status := n]) == EntrySum(h) - Entry(h, status) + n
  {
    var next := h[status := n];
    var f, g := s => Entry(h, s), s => Entry(next, s);
    if status in h {
      assert next.Keys == h.Keys;
      SumUpdate(h.Keys, f, g, status);
    } else {
      assert next.Keys == h.Keys + {status};
      SumInsert(h.Keys, f, g, status);
    }
  }

  const CATALOGUE: map<string, O.Product> := map[
    "prod-1" := O.Product(149.99, 50), "prod-2" := O.Product(79.99, 30), "prod-3" := O.Product(89.99, 100)]

  const FIRST_POSTS: map<string, Post> := map[
    "post-1" := Post("Getting Started with MCP",
                     "Model Context Protocol is a new standard for connecting AI systems...", "John Doe", "published"),
    "post-2" := Post("Building APIs with Go",
                     "Go is an excellent language for building high-performance APIs...", "Jane Smith", "draft")]

  /** The store starts out as the theorems ask: no negative stock, no post without a status. */
  lemma FirstStoreIsSound()
    ensures forall p :: p in CATALOGUE ==> CATALOGUE[p].stock >= 0
    ensures StatusesGiven(FIRST_POSTS)
  {}

  /** Whatever posts are created from there on, every histogram entry is the length of its listing. */
  lemma HistogramAfterAnyRun(inputs: seq<(string, Post)>, h: map<string, nat>, status: string)
    requires FreshIds(FIRST_POSTS, inputs) && IsHistogram(PostedAll(FIRST_POSTS, inputs), h) && status in h
    ensures status != "" && h[status] == |Matching(PostedAll(FIRST_POSTS, inputs), "", status)|
  {
    hide PostedAll, FreshIds, IsHistogram, StatusesGiven, Matching, FIRST_POSTS;
    FirstStoreIsSound();
    PostedAllKeepsStatuses(FIRST_POSTS, inputs);
    HistogramMatchesListing(PostedAll(FIRST_POSTS, inputs), h, status);
  }

  lemma {:induction false} HistogramExists(posts: map<string, Post>) returns (h: map<string, nat>)
    ensures IsHistogram(posts, h) && EntrySum(h) == |posts|
  {
    hide IsHistogram, EntrySum;
    EmptyHistogram();
    if posts == map[] {
      h := map[];
    } else {
      var k :| k in posts;
      var rest := posts - {k};
      assert posts == rest[k := posts[k]];
      h := HistogramExists(rest);
      HistogramGrows(rest, k, posts[k], h);
      EntrySumAfter(h, posts[k].status, Entry(h, posts[k].status) + 1);
      h := h[posts[k].status := Entry(h, posts[k].status) + 1];
    }
  }

  lemma HistogramIsUnique(posts: map<string, Post>, g: map<string, nat>, h: map<string, nat>)
    requires IsHistogram(posts, g) && IsHistogram(posts, h)
    ensures g == h
  {
    hide WithStatus;
    assert forall s :: s in g <==> s in h;
  }

  /** The entries of a histogram sum to the number of posts. */
  lemma HistogramSums(posts: map<string, Post>, h: map<string, nat>)
    requires IsHistogram(posts, h)
    ensures EntrySum(h) == |posts|
  {
    hide IsHistogram, EntrySum;
    var g := HistogramExists(posts);
    HistogramIsUnique(posts, g, h);
  }

  // ---- The store ----------------------------------------------------------------------------------------

  class ProductRecord {
    const price: real
    var stock: int

    constructor (price: real, stock: int)
      ensures this.price == price && this.stock == stock
    {
      this.price := price;
      this.stock := stock;
    }
  }

  class Store {
    var products: map<string, ProductRecord>
    var orders: map<string, O.Order>
    var posts: map<string, Post>

    /** No two ids share a record. */
    ghost predicate Valid()
      reads this
    {
      forall a, b :: a in products && b in products && products[a] == products[b] ==> a == b
    }

    ghost function View(): O.StoreState
      reads this, products.Values
    {
      O.StoreState(map id | id in products :: O.Product(products[id].price, products[id].stock), orders)
    }

    /** The catalogue and the posts that the store starts with. */
    constructor ()
      ensures Valid() && View() == O.StoreState(CATALOGUE, map[]) && posts == FIRST_POSTS
      ensures fresh(products.Values)
    {
      products, orders, posts := map[], map[], FIRST_POSTS;
      new;
      AddProduct("prod-1", 149.99, 50);
      AddProduct("prod-2", 79.99, 30);
      AddProduct("prod-3", 89.99, 100);
    }

    method AddProduct(id: string, price: real, stock: int)
      requires Valid()
      modifies this`products
      ensures Valid() && View() == old(View()).(products := old(View()).products[id := O.Product(price, stock)])
      ensures fresh(products.Values - old(products.Values)) && orders == old(orders) && posts == old(posts)
    {
      var record := new ProductRecord(price, stock);
      products := products[id := record];
    }

    /** Hands out the shared record itself. */
    method GetProduct(id: string) returns (product: Option<ProductRecord>)
      ensures product == if id in products then Some(products[id]) else None
      ensures product.Some? <==> id in View().products
      ensures product.Some? ==> View().products[id] == O.Product(product.value.price, product.value.stock)
    {
      if id !in products {
        return None;
      }
      return Some(products[id]);
    }

    method UpdateProductStock(id: string, quantity: int) returns (ok: bool)
      requires Valid()
      modifies if id in products then {products[id]} else {}
      ensures Valid() && ok == (id in old(View()).products)
      ensures View() == if ok then O.Decrement(old(View()), id, quantity) else old(View())
    {
      if id !in products {
        return false;
      }
      var product := products[id];
      product.stock := product.stock - quantity;
      return true;
    }

    method CreateOrder(productID: string, quantity: int, totalPrice: real, uuid: string) returns (order: O.Order)
      modifies this`orders
      ensures order == O.Order(productID, quantity, totalPrice)
      ensures View() == old(View()).(orders := old(View()).orders[uuid := order])
    {
      order := O.Order(productID, quantity, totalPrice);
      orders := orders[uuid := order];
    }

    /** The tool closure: what it does without interference is its four sections in a row. */
    method ProcessOrder(input: O.Input, uuid: string) returns (answer: O.Answer)
      requires Valid()
      modifies this`orders, if input.productID in products then {products[input.productID]} else {}
      ensures Valid() && (View(), answer) == Finish(old(View()), O.Asked(input), uuid)
    {
      ghost var start := View();
      AloneSections(start, input, uuid);
      var found := GetProduct(input.productID);
      if found.None? {
        return O.NotFound;
      }
      var product := found.value;
      if product.stock < input.quantity {
        return O.Insufficient;
      }
      var totalPrice := product.price * input.quantity as real;
      var order := CreateOrder(input.productID, input.quantity, totalPrice, uuid);
      assert order == O.OrderFor(start, input);
      ghost var created := View();
      assert created == start.(orders := start.orders[uuid := order]);
      var ok := UpdateProductStock(input.productID, input.quantity);
      assert ok && View() == O.Decrement(created, input.productID, input.quantity);
      if !ok {
        return O.NotFound;
      }
      return O.Placed(order);
    }

    method GetTotalRevenue() returns (total: real)
      ensures total == O.Revenue(orders)
    {
      total := 0.0;
      var all := orders;
      var left := all.Keys;
      ghost var f := k => O.Total(all, k);
      while left != {}
        invariant left <= all.Keys
        invariant total + RealSum(left, f) == RealSum(all.Keys, f)
        decreases left
      {
        var k :| k in left;
        RealSumRemove(left, f, k);
        total := total + all[k].total;
        left := left - {k};
      }
      assert O.Revenue(all) == RealSum(all.Keys, f) by { RealSumSame(all.Keys, f, k => O.Total(all, k)); }
    }

    /** The matching posts, each once, in the order the map happens to be walked. */
    method GetPosts(author: string, status: string) returns (result: seq<Post>)
      ensures |result| == |Matching(posts, author, status)|
      ensures exists ids :: Enumerates(ids, Matching(posts, author, status)) && ListsPosts(posts, ids, result)
    {
      result := [];
      ghost var ids: seq<string> := [];
      var left := posts.Keys;
      while left != {}
        invariant left <= posts.Keys && ListsPosts(posts, ids, result)
        invariant Enumerates(ids, Matching(posts, author, status) - left)
        decreases left
      {
        var k :| k in left;
        ghost var done := Matching(posts, author, status) - left;
        left := left - {k};
        if (author != "" && posts[k].author != author) || (status != "" && posts[k].status != status) {
          assert Matching(posts, author, status) - left == done;
          continue;
        }
        EnumerateMore(ids, done, k);
        assert Matching(posts, author, status) - left == done + {k};
        result, ids := result + [posts[k]], ids + [k];
      }
      assert Matching(posts, author, status) - left == Matching(posts, author, status);
      EnumerationLength(ids, Matching(posts, author, status));
    }

    method CreatePost(input: Post, uuid: string) returns (post: Post)
      modifies this`posts
      ensures posts == Posted(old(posts), uuid, input) && post == posts[uuid]
      ensures posts.Keys == old(posts).Keys + {uuid}
      ensures forall k :: k in old(posts) && k != uuid ==> posts[k] == old(posts)[k]
      ensures post.title == input.title && post.content == input.content && post.author == input.author
      ensures if input.status == "" then post.status == "draft" else post.status == input.status
    {
      var status := input.status;
      if status == "" {
        status := "draft";
      }
      post := Post(input.title, input.content, input.author, status);
      posts := posts[uuid := post];
    }

    /** The number that the entries of the posts' histogram sum to. */
    method GetPostCount() returns (n: nat)
      ensures n == |posts|
      ensures forall h: map<string, nat> :: IsHistogram(posts, h) ==> EntrySum(h) == n
    {
      n := |posts|;
      forall h: map<string, nat> | IsHistogram(posts, h) ensures EntrySum(h) == n {
        HistogramSums(posts, h);
      }
    }

    method GetPostCountByStatus() returns (result: map<string, nat>)
      ensures IsHistogram(posts, result)
      ensures EntrySum(result) == |posts|
    {
      hide IsHistogram, EntrySum;
      result := map[];
      var all := posts;
      var left := all.Keys;
      assert all - left == map[];
      EmptyHistogram();
      while left != {}
        invariant left <= all.Keys
        invariant IsHistogram(all - left, result) && EntrySum(result) == |all| - |left|
        decreases left
      {
        var k :| k in left;
        var status := all[k].status;
        HistogramGrows(all - left, k, all[k], result);
        assert all - (left - {k}) == (all - left)[k := all[k]];
        EntrySumAfter(result, status, Entry(result, status) + 1);
        result := result[status := Entry(result, status) + 1];
        left := left - {k};
      }
      assert all - left == all;
    }
  }

  lemma AloneSections(s: O.StoreState, input: O.Input, uuid: string)
    ensures Finish(s, O.Asked(input), uuid) ==
            if input.productID !in s.products then (s, O.NotFound)
            else if s.products[input.productID].stock < input.quantity then (s, O.Insufficient)
            else
              var order := O.OrderFor(s, input);
              (O.Decrement(s.(orders := s.orders[uuid := order]), input.productID, input.quantity), O.Placed(order))
  {
    if input.productID !in s.products {
      assert Finish(s, O.Answered(O.NotFound), uuid) == (s, O.NotFound);
    } else if s.products[input.productID].stock < input.quantity {
      assert Finish(s, O.Answered(O.Insufficient), uuid) == (s, O.Insufficient);
      assert Finish(s, O.Found(input), uuid) == (s, O.Insufficient);
    } else {
      var order := O.OrderFor(s, input);
      var t := s.(orders := s.orders[uuid := order]);
      var u := O.Decrement(t, input.productID, input.quantity);
      assert Finish(u, O.Answered(O.Placed(order)), uuid) == (u, O.Placed(order));
      assert Finish(t, O.Created(input, order), uuid) == (u, O.Placed(order));
      assert Finish(s, O.Checked(input), uuid) == (u, O.Placed(order));
      assert Finish(s, O.Found(input), uuid) == (u, O.Placed(order));
    }
  }
}
