/**
 * `MemStorage`, the in-memory implementation of the marketplace's storage
 * interface: seven keyed tables, one auto-increment counter per table that
 * rows are created in, and the reads, writes and queries over them.
 *
 * The store's promises are stated against the pure definitions in `Schema`
 * (how a record is built or updated), `Tables` (how a table enumerates) and
 * `Catalog` (what the product query returns), plus the invariant `Valid`:
 * every row sits under its own id, every id was handed out by its counter,
 * and the category table is the seeded one.
 */
module Storage {
  import opened Wrappers
  import opened Schema
  import opened Tables
  import JsArray
  import JsText
  import Catalog

  function UserKey(u: User): int { u.id }
  function ProductKey(p: Product): int { p.id }
  function OrderKey(o: Order): int { o.id }
  function MessageKey(m: Message): int { m.id }
  function FavoriteKey(f: Favorite): int { f.id }
  function ReviewKey(r: Review): int { r.id }

  /** The categories the store is seeded with, in insertion order. */
  const SeedCategories: seq<Category> := [
    Category(1, "Tops", Some("Shirts, blouses, sweaters")),
    Category(2, "Dresses", Some("Casual and formal dresses")),
    Category(3, "Pants", Some("Jeans, trousers, leggings")),
    Category(4, "Shoes", Some("Sneakers, boots, heels")),
    Category(5, "Accessories", Some("Bags, jewelry, scarves"))]

  /** The category table after the constructor: each seeded category under its id. */
  const SeedCategoryTable: map<int, Category> := Numbered(SeedCategories)

  /** The seeded table enumerates in seeding order. */
  lemma SeedRows()
    ensures Rows(SeedCategoryTable, 1, |SeedCategories| + 1) == SeedCategories
  {
    RowsOfNumbered(SeedCategories, 1);
  }

  // ---------------------------------------------------------------------------
  // View counting.
  // ---------------------------------------------------------------------------

  /** `product.viewCount || 0`. */
  function Views(p: Product): int
  {
    if p.viewCount.Some? then p.viewCount.value else 0
  }

  /** The product table after one `incrementProductViews(id)`. */
  function Viewed(m: map<int, Product>, id: int): (r: map<int, Product>)
    ensures r.Keys == m.Keys
    ensures forall k :: k in m && k != id ==> r[k] == m[k]
    ensures id in m ==> Views(r[id]) == Views(m[id]) + 1
    ensures id in m ==> r[id].viewCount == Some(Views(m[id]) + 1)
    ensures id in m ==> r[id] == m[id].(viewCount := r[id].viewCount)
  {
    if id in m then m[id := m[id].(viewCount := Some(Views(m[id]) + 1))] else m
  }

  /** `n` views in a row. */
  function ViewedTimes(m: map<int, Product>, id: int, n: nat): map<int, Product>
  {
    if n == 0 then m else Viewed(ViewedTimes(m, id, n - 1), id)
  }

  /** `n` views raise the product's count by exactly `n` and touch nothing else. */
  lemma {:induction false} ViewsAccumulate(m: map<int, Product>, id: int, n: nat)
    ensures ViewedTimes(m, id, n).Keys == m.Keys
    ensures forall k :: k in m && k != id ==> ViewedTimes(m, id, n)[k] == m[k]
    ensures id in m ==> Views(ViewedTimes(m, id, n)[id]) == Views(m[id]) + n
    ensures id in m ==> ViewedTimes(m, id, n)[id] == m[id].(viewCount := ViewedTimes(m, id, n)[id].viewCount)
  {
    if n > 0 {
      ViewsAccumulate(m, id, n - 1);
    }
  }

  // ---------------------------------------------------------------------------
  // Message threads.
  // ---------------------------------------------------------------------------

  /** `message` was sent by one of the two users to the other. */
  predicate Between(message: Message, a: int, b: int)
  {
    (message.senderId == a && message.receiverId == b) || (message.senderId == b && message.receiverId == a)
  }

  /** The conversation test, narrowed to one product when a (truthy) product id is given. */
  predicate InConversation(message: Message, a: int, b: int, productId: Option<int>)
  {
    Between(message, a, b) && (NumberGiven(productId) ==> message.productId == Some(productId.value))
  }

  function Conversation(rows: seq<Message>, a: int, b: int, productId: Option<int>): seq<Message>
  {
    JsArray.Filter(rows, (m: Message) => InConversation(m, a, b, productId))
  }

  /** The messages a user sent or received. */
  function Inbox(rows: seq<Message>, userId: int): seq<Message>
  {
    JsArray.Filter(rows, (m: Message) => m.senderId == userId || m.receiverId == userId)
  }

  /** A conversation is the same whichever of the two users asks for it. */
  lemma ConversationSymmetric(rows: seq<Message>, a: int, b: int, productId: Option<int>)
    ensures Conversation(rows, a, b, productId) == Conversation(rows, b, a, productId)
  {
    JsArray.FilterAgree(rows, (m: Message) => InConversation(m, a, b, productId),
      (m: Message) => InConversation(m, b, a, productId));
  }

  /** Every message of a conversation is in both participants' inboxes, in the same order as all messages. */
  lemma {:induction false} ConversationWithinInboxes(rows: seq<Message>, a: int, b: int, productId: Option<int>)
    ensures forall m :: m in Conversation(rows, a, b, productId) ==> m in Inbox(rows, a) && m in Inbox(rows, b)
    ensures Conversation(rows, a, b, productId)
         == JsArray.Filter(Inbox(rows, a), (m: Message) => InConversation(m, a, b, productId))
  {
    JsArray.FilterFilter(rows, (m: Message) => m.senderId == a || m.receiverId == a,
      (m: Message) => InConversation(m, a, b, productId),
      (m: Message) => InConversation(m, a, b, productId));
  }

  // ---------------------------------------------------------------------------
  // Favourites.
  // ---------------------------------------------------------------------------

  /** Some favourite of the user points at a stored product, and `p` is that product. */
  ghost predicate FavouredBy(favs: seq<Favorite>, products: map<int, Product>, userId: int, p: Product)
  {
    exists f :: f in favs && f.userId == userId && f.productId in products && products[f.productId] == p
  }

  /** `favorites.filter(f => f.userId === userId).map(f => f.productId).map(id => products.get(id))`. */
  function LookedUp(favs: seq<Favorite>, products: map<int, Product>, userId: int): seq<Option<Product>>
  {
    var mine := JsArray.Filter(favs, (f: Favorite) => f.userId == userId);
    var ids := JsArray.Map(mine, (f: Favorite) => f.productId);
    JsArray.Map(ids, (id: int) => Lookup(products, id))
  }

  /** Each of the user's favourites is looked up. */
  lemma LookedUpCovers(favs: seq<Favorite>, products: map<int, Product>, userId: int)
    ensures forall f :: f in favs && f.userId == userId ==> Lookup(products, f.productId) in LookedUp(favs, products, userId)
    ensures |LookedUp(favs, products, userId)| <= |favs|
  {
    var mine := JsArray.Filter(favs, (f: Favorite) => f.userId == userId);
    var found := LookedUp(favs, products, userId);
    forall f | f in favs && f.userId == userId ensures Lookup(products, f.productId) in found {
      assert f in mine;
      var i :| 0 <= i < |mine| && mine[i] == f;
      assert found[i] == Lookup(products, f.productId);
    }
  }

  /** Every product found is stored and favoured by the user. */
  lemma LookedUpSound(favs: seq<Favorite>, products: map<int, Product>, userId: int)
    ensures forall p :: Some(p) in LookedUp(favs, products, userId) ==> p in products.Values && FavouredBy(favs, products, userId, p)
  {
    var mine := JsArray.Filter(favs, (f: Favorite) => f.userId == userId);
    var found := LookedUp(favs, products, userId);
    forall p | Some(p) in found ensures p in products.Values && FavouredBy(favs, products, userId, p) {
      var i :| 0 <= i < |found| && found[i] == Some(p);
      var f := mine[i];
      assert f in mine;
      assert f.productId in products && products[f.productId] == p;
    }
  }

  /** The user's favourites, mapped to their products, dropping products that no longer exist. */
  function FavoriteProducts(favs: seq<Favorite>, products: map<int, Product>, userId: int): (r: seq<Product>)
    ensures forall p :: p in r ==> p in products.Values && FavouredBy(favs, products, userId, p)
    ensures forall f :: f in favs && f.userId == userId && f.productId in products ==> products[f.productId] in r
    ensures |r| <= |favs|
  {
    LookedUpCovers(favs, products, userId);
    LookedUpSound(favs, products, userId);
    var found := LookedUp(favs, products, userId);
    assert forall f :: f in favs && f.userId == userId && f.productId in products ==> Some(products[f.productId]) in found;
    JsArray.Present(found)
  }

  /**
   * One more favourite adds its product at the end, when the favourite is the
   * user's and the product exists: the products come in favourite order, a
   * product favourited twice comes twice.
   */
  lemma FavoriteProductsAppend(favs: seq<Favorite>, f: Favorite, products: map<int, Product>, userId: int)
    ensures FavoriteProducts(favs + [f], products, userId)
         == FavoriteProducts(favs, products, userId)
            + (if f.userId == userId && f.productId in products then [products[f.productId]] else [])
  {
    var mine := (g: Favorite) => g.userId == userId;
    var id := (g: Favorite) => g.productId;
    var get := (k: int) => Lookup(products, k);
    JsArray.FilterConcat(favs, [f], mine);
    var a, b := JsArray.Filter(favs, mine), JsArray.Filter([f], mine);
    JsArray.MapConcat(a, b, id);
    JsArray.MapConcat(JsArray.Map(a, id), JsArray.Map(b, id), get);
    JsArray.PresentConcat(JsArray.Map(JsArray.Map(a, id), get), JsArray.Map(JsArray.Map(b, id), get));
    assert LookedUp(favs + [f], products, userId) == LookedUp(favs, products, userId) + JsArray.Map(JsArray.Map(b, id), get);
  }

  /**
   * The catalogue query over a keyed product table returns stored rows that
   * match every given filter, newest first, and no more than the limit.
   */
  lemma QueryReturnsStoredRows(products: map<int, Product>, next: int, f: Catalog.ProductFilters)
    requires Keyed(products, next, ProductKey)
    ensures forall p :: p in Catalog.Query(Rows(products, 1, next), f) ==> p.id in products && products[p.id] == p && Catalog.Matches(f, p)
    ensures Catalog.NewestFirst(Catalog.Query(Rows(products, 1, next), f))
    ensures 0 < Catalog.LimitOf(f) ==> |Catalog.Query(Rows(products, 1, next), f)| <= Catalog.LimitOf(f)
  {
    var rows := Rows(products, 1, next);
    Catalog.QueryOrderedAndBounded(rows, f);
    RowsStored(products, 1, next);
    forall p | p in Catalog.Query(rows, f)
      ensures p.id in products && products[p.id] == p && Catalog.Matches(f, p)
    {
      Catalog.QuerySound(rows, f, p);
      var i :| 0 <= i < |rows| && rows[i] == p;
      assert StoredBetween(products, 1, next, rows[i]);
    }
  }

  /** The lowest-keyed favourite of `userId` for `productId`: the one `removeFromFavorites` deletes. */
  ghost predicate FirstFavorite(m: map<int, Favorite>, userId: int, productId: int, k: int)
  {
    && k in m && m[k].userId == userId && m[k].productId == productId
    && forall j :: j in m && m[j].userId == userId && m[j].productId == productId ==> k <= j
  }

  class MemStorage {
    var users: map<int, User>
    var products: map<int, Product>
    var categories: map<int, Category>
    var orders: map<int, Order>
    var messages: map<int, Message>
    var favorites: map<int, Favorite>
    var reviews: map<int, Review>

    var currentUserId: int
    var currentProductId: int
    var currentOrderId: int
    var currentMessageId: int
    var currentFavoriteId: int
    var currentReviewId: int

    /** Rows sit under their own ids, below their table's counter; the categories are the seeded ones. */
    ghost predicate Valid()
      reads this
    {
      && Keyed(users, currentUserId, UserKey)
      && Keyed(products, currentProductId, ProductKey)
      && Keyed(orders, currentOrderId, OrderKey)
      && Keyed(messages, currentMessageId, MessageKey)
      && Keyed(favorites, currentFavoriteId, FavoriteKey)
      && Keyed(reviews, currentReviewId, ReviewKey)
      && categories == SeedCategoryTable
    }

    constructor ()
      ensures Valid()
      ensures users == map[] && products == map[] && orders == map[]
      ensures messages == map[] && favorites == map[] && reviews == map[]
      ensures categories == SeedCategoryTable
      ensures currentUserId == 1 && currentProductId == 1 && currentOrderId == 1
      ensures currentMessageId == 1 && currentFavoriteId == 1 && currentReviewId == 1
    {
      users := map[];
      products := map[];
      categories := SeedCategoryTable;
      orders := map[];
      messages := map[];
      favorites := map[];
      reviews := map[];
      currentUserId := 1;
      currentProductId := 1;
      currentOrderId := 1;
      currentMessageId := 1;
      currentFavoriteId := 1;
      currentReviewId := 1;
    }

    // `Array.from(table.values())`, for each table.
    function UserRows(): seq<User> reads this { Rows(users, 1, currentUserId) }
    function ProductRows(): seq<Product> reads this { Rows(products, 1, currentProductId) }
    function OrderRows(): seq<Order> reads this { Rows(orders, 1, currentOrderId) }
    function MessageRows(): seq<Message> reads this { Rows(messages, 1, currentMessageId) }
    function FavoriteRows(): seq<Favorite> reads this { Rows(favorites, 1, currentFavoriteId) }
    function ReviewRows(): seq<Review> reads this { Rows(reviews, 1, currentReviewId) }

    // -------------------------------------------------------------------------
    // Users.
    // -------------------------------------------------------------------------

    function GetUser(id: int): (r: Option<User>)
      reads this
      requires Valid()
      ensures r.Some? <==> id in users
      ensures r.Some? ==> r.value == users[id] && r.value.id == id
    {
      Lookup(users, id)
    }

    /** The earliest-created user with this email, if any. */
    function GetUserByEmail(email: string): (r: Option<User>)
      reads this
      requires Valid()
      ensures r.None? <==> forall k :: k in users ==> users[k].email != email
      ensures r.Some? ==> r.value.id in users && users[r.value.id] == r.value && r.value.email == email
      ensures r.Some? ==> forall k :: k in users && users[k].email == email ==> r.value.id <= k
    {
      var hasEmail := (u: User) => u.email == email;
      FindLowest(users, currentUserId, UserKey, hasEmail);
      JsArray.Find(UserRows(), hasEmail)
    }

    /** The earliest-created user with this username, if any. */
    function GetUserByUsername(username: string): (r: Option<User>)
      reads this
      requires Valid()
      ensures r.None? <==> forall k :: k in users ==> users[k].username != username
      ensures r.Some? ==> r.value.id in users && users[r.value.id] == r.value && r.value.username == username
      ensures r.Some? ==> forall k :: k in users && users[k].username == username ==> r.value.id <= k
    {
      var hasName := (u: User) => u.username == username;
      FindLowest(users, currentUserId, UserKey, hasName);
      JsArray.Find(UserRows(), hasName)
    }

    /** Stores a new user under the next id, which was never used before; it enumerates last. */
    method CreateUser(u: InsertUser, now: Time) returns (r: User)
      requires Valid()
      modifies this`users, this`currentUserId
      ensures Valid()
      ensures r == NewUser(old(currentUserId), u, now)
      ensures forall k :: k in old(users) ==> k < r.id
      ensures users == old(users)[r.id := r]
      ensures currentUserId == old(currentUserId) + 1
      ensures UserRows() == old(UserRows()) + [r]
    {
      var id := currentUserId;
      r := NewUser(id, u, now);
      RowsAppend(users, 1, id, r);
      currentUserId := currentUserId + 1;
      users := users[id := r];
    }

    /** Overlays the patch on a stored user; an unknown id changes nothing. */
    method UpdateUser(id: int, d: UserPatch, now: Time) returns (r: Option<User>)
      requires Valid()
      modifies this`users
      ensures Valid()
      ensures id !in old(users) ==> r.None? && users == old(users)
      ensures id in old(users) ==> r == Some(UpdatedUser(old(users)[id], d, now))
      ensures r.Some? ==> users == old(users)[id := r.value]
    {
      var user := Lookup(users, id);
      if user.None? {
        return None;
      }
      var updated := UpdatedUser(user.value, d, now);
      users := users[id := updated];
      r := Some(updated);
    }

    // -------------------------------------------------------------------------
    // Products.
    // -------------------------------------------------------------------------

    function GetProduct(id: int): (r: Option<Product>)
      reads this
      requires Valid()
      ensures r.Some? <==> id in products
      ensures r.Some? ==> r.value == products[id] && r.value.id == id
    {
      Lookup(products, id)
    }

    /**
     * `getProducts(filters)`: narrows the rows by each given facet in turn,
     * sorts newest first and cuts the `offset`/`limit` window. It is the
     * catalogue query over the product table, so everything proved of
     * `Catalog.Query` holds of it.
     */
    method GetProducts(f: Catalog.ProductFilters) returns (r: seq<Product>)
      ensures r == Catalog.Query(ProductRows(), f)
    {
      var all := ProductRows();
      var rows := all;

      ghost var narrowed := rows;
      if NumberGiven(f.categoryId) {
        rows := JsArray.Filter(rows, Catalog.CategoryTest(f));
      }
      assert rows == Catalog.Step(narrowed, f, 0);
      narrowed := rows;
      if TextGiven(f.condition) {
        rows := JsArray.Filter(rows, Catalog.ConditionTest(f));
      }
      assert rows == Catalog.Step(narrowed, f, 1);
      narrowed := rows;
      if NumberGiven(f.minPrice) {
        rows := JsArray.Filter(rows, Catalog.MinPriceTest(f));
      }
      assert rows == Catalog.Step(narrowed, f, 2);
      narrowed := rows;
      if NumberGiven(f.maxPrice) {
        rows := JsArray.Filter(rows, Catalog.MaxPriceTest(f));
      }
      assert rows == Catalog.Step(narrowed, f, 3);
      narrowed := rows;
      if NumberGiven(f.sellerId) {
        rows := JsArray.Filter(rows, Catalog.SellerTest(f));
      }
      assert rows == Catalog.Step(narrowed, f, 4);
      narrowed := rows;
      if TextGiven(f.search) {
        var search := JsText.ToLowerCase(f.search.value);
        rows := JsArray.Filter(rows, Catalog.SearchTest(search));
      }
      assert rows == Catalog.Step(narrowed, f, 5);

      assert rows == Catalog.Narrowed(all, f);
      Catalog.NarrowedMatches(all, f);
      rows := Catalog.SortNewest(rows);
      assert rows == Catalog.Candidates(all, f);

      var offset := if NumberGiven(f.offset) then f.offset.value else 0;
      var limit := if NumberGiven(f.limit) then f.limit.value else 20;
      r := JsArray.Slice(rows, offset, offset + limit);

      assert offset == Catalog.OffsetOf(f) && limit == Catalog.LimitOf(f);
      assert r == Catalog.Query(all, f);
    }

    /** Stores a new product under the next id; it enumerates last. */
    method CreateProduct(p: InsertProduct, now: Time) returns (r: Product)
      requires Valid()
      modifies this`products, this`currentProductId
      ensures Valid()
      ensures r == NewProduct(old(currentProductId), p, now)
      ensures forall k :: k in old(products) ==> k < r.id
      ensures products == old(products)[r.id := r]
      ensures currentProductId == old(currentProductId) + 1
      ensures ProductRows() == old(ProductRows()) + [r]
    {
      var id := currentProductId;
      r := NewProduct(id, p, now);
      RowsAppend(products, 1, id, r);
      KeyedAdd(products, id, ProductKey, r);
      currentProductId := currentProductId + 1;
      products := products[id := r];
    }

    /** Overlays the patch on a stored product, which keeps its place in the enumeration; an unknown id changes nothing. */
    method UpdateProduct(id: int, d: ProductPatch, now: Time) returns (r: Option<Product>)
      requires Valid()
      modifies this`products
      ensures Valid()
      ensures id !in old(products) ==> r.None? && products == old(products)
      ensures id in old(products) ==> r == Some(UpdatedProduct(old(products)[id], d, now))
      ensures r.Some? ==> products == old(products)[id := r.value]
      ensures r.Some? ==> ProductRows() == JsArray.Map(old(ProductRows()), (x: Product) => if x.id == id then r.value else x)
    {
      if id !in products {
        return None;
      }
      var updated := UpdatedProduct(products[id], d, now);
      RowsReplace(products, 1, currentProductId, id, (x: Product) => if x.id == id then updated else x);
      KeyedSet(products, currentProductId, ProductKey, id, updated);
      products := products[id := updated];
      r := Some(updated);
    }

    /** Removes the product for good; reports whether it was there. The other rows keep their order. */
    method DeleteProduct(id: int) returns (deleted: bool)
      requires Valid()
      modifies this`products
      ensures Valid()
      ensures deleted == (id in old(products))
      ensures products == old(products) - {id}
      ensures ProductRows() == JsArray.Filter(old(ProductRows()), (x: Product) => x.id != id)
    {
      deleted := id in products;
      RowsRemove(products, 1, currentProductId, id, (x: Product) => x.id != id);
      products := products - {id};
    }

    /** Counts one view of a stored product; an unknown id changes nothing. */
    method IncrementProductViews(id: int)
      requires Valid()
      modifies this`products
      ensures Valid()
      ensures products == Viewed(old(products), id)
    {
      var product := Lookup(products, id);
      if product.Some? {
        var viewed := product.value.(viewCount := Some(Views(product.value) + 1));
        products := products[id := viewed];
      }
    }

    // -------------------------------------------------------------------------
    // Categories.
    // -------------------------------------------------------------------------

    /** Always the five seeded categories, in seeding order. */
    function GetCategories(): (r: seq<Category>)
      reads this
      requires Valid()
      ensures r == SeedCategories
    {
      SeedRows();
      Rows(categories, 1, |SeedCategories| + 1)
    }

    // -------------------------------------------------------------------------
    // Orders.
    // -------------------------------------------------------------------------

    function GetOrder(id: int): (r: Option<Order>)
      reads this
      requires Valid()
      ensures r.Some? <==> id in orders
      ensures r.Some? ==> r.value == orders[id] && r.value.id == id
    {
      Lookup(orders, id)
    }

    /** The orders the user bought or sold, oldest first. */
    function GetUserOrders(userId: int): (r: seq<Order>)
      reads this
      requires Valid()
      ensures forall o :: o in r <==> HasRow(orders, o) && (o.buyerId == userId || o.sellerId == userId)
      ensures forall i, j :: 0 <= i < j < |r| ==> r[i].id < r[j].id
    {
      RowsAreValues(orders, 1, currentOrderId);
      RowsAscending(orders, 1, currentOrderId, OrderKey);
      JsArray.FilterKeepsOrder(OrderRows(), (o: Order) => o.buyerId == userId || o.sellerId == userId, OrderKey);
      JsArray.Filter(OrderRows(), (o: Order) => o.buyerId == userId || o.sellerId == userId)
    }

    /** Stores a new order, always `pending`, under the next id. */
    method CreateOrder(o: InsertOrder, now: Time) returns (r: Order)
      requires Valid()
      modifies this`orders, this`currentOrderId
      ensures Valid()
      ensures r == NewOrder(old(currentOrderId), o, now)
      ensures forall k :: k in old(orders) ==> k < r.id
      ensures orders == old(orders)[r.id := r]
      ensures currentOrderId == old(currentOrderId) + 1
    {
      var id := currentOrderId;
      r := NewOrder(id, o, now);
      currentOrderId := currentOrderId + 1;
      orders := orders[id := r];
    }

    /** Sets a stored order's status and stamps it; an unknown id changes nothing. */
    method UpdateOrderStatus(id: int, status: string, now: Time) returns (r: Option<Order>)
      requires Valid()
      modifies this`orders
      ensures Valid()
      ensures id !in old(orders) ==> r.None? && orders == old(orders)
      ensures id in old(orders) ==> r == Some(old(orders)[id].(status := status, updatedAt := now))
      ensures r.Some? ==> orders == old(orders)[id := r.value]
    {
      var order := Lookup(orders, id);
      if order.None? {
        return None;
      }
      var changed := order.value.(status := status, updatedAt := now);
      orders := orders[id := changed];
      r := Some(changed);
    }

    // -------------------------------------------------------------------------
    // Messages.
    // -------------------------------------------------------------------------

    /** The messages the user sent or received, oldest first. */
    function GetUserMessages(userId: int): (r: seq<Message>)
      reads this
      requires Valid()
      ensures r == Inbox(MessageRows(), userId)
      ensures forall m :: m in r <==> HasRow(messages, m) && (m.senderId == userId || m.receiverId == userId)
    {
      RowsAreValues(messages, 1, currentMessageId);
      Inbox(MessageRows(), userId)
    }

    /** The messages between two users, about one product when a product id is given. */
    function GetConversation(a: int, b: int, productId: Option<int>): (r: seq<Message>)
      reads this
      requires Valid()
      ensures r == Conversation(MessageRows(), a, b, productId)
      ensures forall m :: m in r <==> HasRow(messages, m) && InConversation(m, a, b, productId)
    {
      RowsAreValues(messages, 1, currentMessageId);
      Conversation(MessageRows(), a, b, productId)
    }

    /** Stores a new, unread message under the next id. */
    method CreateMessage(m: InsertMessage, now: Time) returns (r: Message)
      requires Valid()
      modifies this`messages, this`currentMessageId
      ensures Valid()
      ensures r == NewMessage(old(currentMessageId), m, now)
      ensures forall k :: k in old(messages) ==> k < r.id
      ensures messages == old(messages)[r.id := r]
      ensures currentMessageId == old(currentMessageId) + 1
    {
      var id := currentMessageId;
      r := NewMessage(id, m, now);
      currentMessageId := currentMessageId + 1;
      messages := messages[id := r];
    }

    /** Marks a stored message read; an unknown id changes nothing. */
    method MarkMessageAsRead(id: int)
      requires Valid()
      modifies this`messages
      ensures Valid()
      ensures id !in old(messages) ==> messages == old(messages)
      ensures id in old(messages) ==> messages == old(messages)[id := old(messages)[id].(isRead := Some(true))]
    {
      var message := Lookup(messages, id);
      if message.Some? {
        messages := messages[id := message.value.(isRead := Some(true))];
      }
    }

    // -------------------------------------------------------------------------
    // Favourites.
    // -------------------------------------------------------------------------

    /** The products the user favourited and that still exist. */
    function GetUserFavorites(userId: int): (r: seq<Product>)
      reads this
      requires Valid()
      ensures forall p :: p in r ==> p.id in products && products[p.id] == p
      ensures forall p :: p in r ==> exists k :: k in favorites && favorites[k].userId == userId && favorites[k].productId == p.id
      ensures r == FavoriteProducts(FavoriteRows(), products, userId)
      ensures forall k :: k in favorites && favorites[k].userId == userId && favorites[k].productId in products ==> products[favorites[k].productId] in r
    {
      RowsStored(favorites, 1, currentFavoriteId);
      FavoriteProducts(FavoriteRows(), products, userId)
    }

    /** Stores a new favourite under the next id, even when the same pair is already stored. */
    method AddToFavorites(f: InsertFavorite, now: Time) returns (r: Favorite)
      requires Valid()
      modifies this`favorites, this`currentFavoriteId
      ensures Valid()
      ensures r == NewFavorite(old(currentFavoriteId), f, now)
      ensures forall k :: k in old(favorites) ==> k < r.id
      ensures favorites == old(favorites)[r.id := r]
      ensures currentFavoriteId == old(currentFavoriteId) + 1
      ensures IsFavorited(f.userId, f.productId)
    {
      var id := currentFavoriteId;
      r := NewFavorite(id, f, now);
      currentFavoriteId := currentFavoriteId + 1;
      favorites := favorites[id := r];
      assert favorites[id] == r;
    }

    /** Deletes the earliest stored favourite of this user for this product; reports whether there was one. */
    method RemoveFromFavorites(userId: int, productId: int) returns (removed: bool)
      requires Valid()
      modifies this`favorites
      ensures Valid()
      ensures removed == old(IsFavorited(userId, productId))
      ensures !removed ==> favorites == old(favorites)
      ensures removed ==> exists k :: FirstFavorite(old(favorites), userId, productId, k) && favorites == old(favorites) - {k}
    {
      var isPair := (f: Favorite) => f.userId == userId && f.productId == productId;
      FindLowest(favorites, currentFavoriteId, FavoriteKey, isPair);
      var favorite := JsArray.Find(FavoriteRows(), isPair);
      if favorite.Some? {
        var k := favorite.value.id;
        assert FirstFavorite(favorites, userId, productId, k);
        removed := k in favorites;
        favorites := favorites - {k};
      } else {
        removed := false;
      }
    }

    /** Whether some stored favourite pairs this user with this product. */
    function IsFavorited(userId: int, productId: int): (r: bool)
      reads this
      requires Valid()
      ensures r <==> exists k :: k in favorites && favorites[k].userId == userId && favorites[k].productId == productId
    {
      var isPair := (f: Favorite) => f.userId == userId && f.productId == productId;
      FindLowest(favorites, currentFavoriteId, FavoriteKey, isPair);
      JsArray.Any(FavoriteRows(), isPair)
    }

    // -------------------------------------------------------------------------
    // Reviews.
    // -------------------------------------------------------------------------

    /** The reviews written about the user, oldest first. */
    function GetUserReviews(userId: int): (r: seq<Review>)
      reads this
      requires Valid()
      ensures forall v :: v in r <==> HasRow(reviews, v) && v.revieweeId == userId
      ensures forall i, j :: 0 <= i < j < |r| ==> r[i].id < r[j].id
    {
      RowsAreValues(reviews, 1, currentReviewId);
      RowsAscending(reviews, 1, currentReviewId, ReviewKey);
      JsArray.FilterKeepsOrder(ReviewRows(), (v: Review) => v.revieweeId == userId, ReviewKey);
      JsArray.Filter(ReviewRows(), (v: Review) => v.revieweeId == userId)
    }

    /** Stores a new review under the next id. */
    method CreateReview(v: InsertReview, now: Time) returns (r: Review)
      requires Valid()
      modifies this`reviews, this`currentReviewId
      ensures Valid()
      ensures r == NewReview(old(currentReviewId), v, now)
      ensures forall k :: k in old(reviews) ==> k < r.id
      ensures reviews == old(reviews)[r.id := r]
      ensures currentReviewId == old(currentReviewId) + 1
    {
      var id := currentReviewId;
      r := NewReview(id, v, now);
      currentReviewId := currentReviewId + 1;
      reviews := reviews[id := r];
    }
  }
}
