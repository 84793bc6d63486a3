/**
 * The marketplace's records, with the field shapes of the relational schema
 * (shared/schema.ts): one datatype per table row, one per insert payload and,
 * for the two tables that have an update operation, one per partial update.
 *
 * Nullable columns are `Option`s. Decimal money columns are whole cents.
 * Timestamps are the millisecond counts that `getTime()` returns.
 */
module Schema {
  import opened Wrappers

  type Cents = int
  type Time = int

  datatype User = User(
    id: int, username: string, email: string, password: string,
    firstName: Option<string>, lastName: Option<string>, profileImageUrl: Option<string>,
    rating: Option<string>, reviewCount: Option<int>, isAdmin: Option<bool>,
    createdAt: Time, updatedAt: Time)

  /** The user insert payload: every column but `id`, `createdAt` and `updatedAt`. */
  datatype InsertUser = InsertUser(
    username: string, email: string, password: string,
    firstName: Option<string>, lastName: Option<string>, profileImageUrl: Option<string>,
    rating: Option<string>, reviewCount: Option<int>, isAdmin: Option<bool>)

  /** `Partial<InsertUser>`: `None` is an absent key, `Some(v)` sets the column to `v`. */
  datatype UserPatch = UserPatch(
    username: Option<string>, email: Option<string>, password: Option<string>,
    firstName: Option<Option<string>>, lastName: Option<Option<string>>,
    profileImageUrl: Option<Option<string>>, rating: Option<Option<string>>,
    reviewCount: Option<Option<int>>, isAdmin: Option<Option<bool>>)

  datatype Category = Category(id: int, name: string, description: Option<string>)

  datatype Product = Product(
    id: int, title: string, description: string, price: Cents, originalPrice: Option<Cents>,
    size: string, condition: string, brand: Option<string>, color: Option<string>,
    material: Option<string>, categoryId: Option<int>, sellerId: int,
    imageUrls: Option<seq<string>>, status: string, viewCount: Option<int>,
    isFeatured: Option<bool>, createdAt: Time, updatedAt: Time)

  /** The product insert payload: every column but `id`, `createdAt`, `updatedAt` and `viewCount`. */
  datatype InsertProduct = InsertProduct(
    title: string, description: string, price: Cents, originalPrice: Option<Cents>,
    size: string, condition: string, brand: Option<string>, color: Option<string>,
    material: Option<string>, categoryId: Option<int>, sellerId: int,
    imageUrls: Option<seq<string>>, status: Option<string>, isFeatured: Option<bool>)

  /** `Partial<InsertProduct>`: `None` is an absent key, `Some(v)` sets the column to `v`. */
  datatype ProductPatch = ProductPatch(
    title: Option<string>, description: Option<string>, price: Option<Cents>,
    originalPrice: Option<Option<Cents>>, size: Option<string>, condition: Option<string>,
    brand: Option<Option<string>>, color: Option<Option<string>>,
    material: Option<Option<string>>, categoryId: Option<Option<int>>, sellerId: Option<int>,
    imageUrls: Option<Option<seq<string>>>, status: Option<string>,
    isFeatured: Option<Option<bool>>)

  datatype Order = Order(
    id: int, buyerId: int, sellerId: int, productId: int, amount: Cents,
    status: string, createdAt: Time, updatedAt: Time)

  datatype InsertOrder = InsertOrder(
    buyerId: int, sellerId: int, productId: int, amount: Cents, status: Option<string>)

  datatype Message = Message(
    id: int, senderId: int, receiverId: int, productId: Option<int>, content: string,
    isRead: Option<bool>, createdAt: Time)

  datatype InsertMessage = InsertMessage(
    senderId: int, receiverId: int, productId: Option<int>, content: string, isRead: Option<bool>)

  datatype Favorite = Favorite(id: int, userId: int, productId: int, createdAt: Time)

  datatype InsertFavorite = InsertFavorite(userId: int, productId: int)

  datatype Review = Review(
    id: int, reviewerId: int, revieweeId: int, orderId: int, rating: int,
    comment: Option<string>, createdAt: Time)

  datatype InsertReview = InsertReview(
    reviewerId: int, revieweeId: int, orderId: int, rating: int, comment: Option<string>)

  /** JavaScript truthiness of an optional string: present and non-empty. */
  predicate TextGiven(o: Option<string>)
  {
    o.Some? && |o.value| > 0
  }

  /** JavaScript truthiness of an optional number: present and non-zero. */
  predicate NumberGiven(o: Option<int>)
  {
    o.Some? && o.value != 0
  }

  /** `s || null` for an optional string. */
  function TextOrNull(o: Option<string>): (r: Option<string>)
    ensures r.Some? <==> TextGiven(o)
    ensures r.Some? ==> r == o
  {
    if TextGiven(o) then o else None
  }

  /** `n || null` for an optional number. */
  function NumberOrNull(o: Option<int>): (r: Option<int>)
    ensures r.Some? <==> NumberGiven(o)
    ensures r.Some? ==> r == o
  {
    if NumberGiven(o) then o else None
  }

  /** The value of a patch entry if the key is present, else the old value (object spread). */
  function Overlay<T>(o: Option<T>, old_: T): (r: T)
    ensures o.None? ==> r == old_
    ensures o.Some? ==> r == o.value
  {
    if o.Some? then o.value else old_
  }

  /** `{ ...insertUser, id, firstName: … || null, …, rating: "0.0", reviewCount: 0, isAdmin: false, … }`. */
  function NewUser(id: int, u: InsertUser, now: Time): (r: User)
    ensures r.id == id && r.createdAt == now && r.updatedAt == now
    ensures r.username == u.username && r.email == u.email && r.password == u.password
    ensures r.firstName.Some? <==> TextGiven(u.firstName)
    ensures r.firstName.Some? ==> r.firstName == u.firstName
    ensures r.lastName.Some? <==> TextGiven(u.lastName)
    ensures r.lastName.Some? ==> r.lastName == u.lastName
    ensures r.profileImageUrl.Some? <==> TextGiven(u.profileImageUrl)
    ensures r.profileImageUrl.Some? ==> r.profileImageUrl == u.profileImageUrl
    ensures r.rating == Some("0.0") && r.reviewCount == Some(0) && r.isAdmin == Some(false)
  {
    User(id, u.username, u.email, u.password,
      TextOrNull(u.firstName), TextOrNull(u.lastName), TextOrNull(u.profileImageUrl),
      Some("0.0"), Some(0), Some(false), now, now)
  }

  /** `{ ...user, ...updates, updatedAt: now }`. */
  function UpdatedUser(u: User, d: UserPatch, now: Time): (r: User)
    ensures r.id == u.id && r.createdAt == u.createdAt && r.updatedAt == now
    ensures d == UserPatch(None, None, None, None, None, None, None, None, None)
      ==> r == u.(updatedAt := now)
    ensures r.username == Overlay(d.username, u.username) && r.email == Overlay(d.email, u.email)
    ensures r.password == Overlay(d.password, u.password)
    ensures r.firstName == Overlay(d.firstName, u.firstName) && r.lastName == Overlay(d.lastName, u.lastName)
    ensures r.profileImageUrl == Overlay(d.profileImageUrl, u.profileImageUrl)
    ensures r.rating == Overlay(d.rating, u.rating) && r.reviewCount == Overlay(d.reviewCount, u.reviewCount)
    ensures r.isAdmin == Overlay(d.isAdmin, u.isAdmin)
  {
    User(u.id, Overlay(d.username, u.username), Overlay(d.email, u.email),
      Overlay(d.password, u.password), Overlay(d.firstName, u.firstName),
      Overlay(d.lastName, u.lastName), Overlay(d.profileImageUrl, u.profileImageUrl),
      Overlay(d.rating, u.rating), Overlay(d.reviewCount, u.reviewCount),
      Overlay(d.isAdmin, u.isAdmin), u.createdAt, now)
  }

  /**
   * `{ ...insertProduct, id, categoryId: … || null, …, status: "active",
   * viewCount: 0, isFeatured: false, … }`. Money is whole cents here, which
   * stand for numeric strings such as "0.00"; those are truthy, so a present
   * `originalPrice` survives `|| null` (the empty string, which would not, has
   * no cents value). An array is always truthy, so a present `imageUrls`
   * survives too, even when empty.
   */
  function NewProduct(id: int, p: InsertProduct, now: Time): (r: Product)
    ensures r.id == id && r.createdAt == now && r.updatedAt == now
    ensures r.title == p.title && r.description == p.description && r.price == p.price
    ensures r.size == p.size && r.condition == p.condition && r.sellerId == p.sellerId
    ensures r.originalPrice == p.originalPrice && r.imageUrls == p.imageUrls
    ensures r.brand.Some? <==> TextGiven(p.brand)
    ensures r.brand.Some? ==> r.brand == p.brand
    ensures r.color.Some? <==> TextGiven(p.color)
    ensures r.color.Some? ==> r.color == p.color
    ensures r.material.Some? <==> TextGiven(p.material)
    ensures r.material.Some? ==> r.material == p.material
    ensures r.categoryId.Some? <==> NumberGiven(p.categoryId)
    ensures r.categoryId.Some? ==> r.categoryId == p.categoryId
    ensures r.status == "active" && r.viewCount == Some(0) && r.isFeatured == Some(false)
  {
    Product(id, p.title, p.description, p.price, p.originalPrice, p.size, p.condition,
      TextOrNull(p.brand), TextOrNull(p.color), TextOrNull(p.material),
      NumberOrNull(p.categoryId), p.sellerId, p.imageUrls,
      "active", Some(0), Some(false), now, now)
  }

  const NoProductChanges := ProductPatch(
    None, None, None, None, None, None, None, None, None, None, None, None, None, None)

  /** `{ ...product, ...updates, updatedAt: now }`. */
  function UpdatedProduct(p: Product, d: ProductPatch, now: Time): (r: Product)
    ensures r.id == p.id && r.viewCount == p.viewCount && r.createdAt == p.createdAt
    ensures r.updatedAt == now
    ensures d == NoProductChanges ==> r == p.(updatedAt := now)
    ensures r.title == Overlay(d.title, p.title) && r.description == Overlay(d.description, p.description)
    ensures r.price == Overlay(d.price, p.price) && r.originalPrice == Overlay(d.originalPrice, p.originalPrice)
    ensures r.size == Overlay(d.size, p.size) && r.condition == Overlay(d.condition, p.condition)
    ensures r.brand == Overlay(d.brand, p.brand) && r.color == Overlay(d.color, p.color)
    ensures r.material == Overlay(d.material, p.material) && r.categoryId == Overlay(d.categoryId, p.categoryId)
    ensures r.sellerId == Overlay(d.sellerId, p.sellerId) && r.imageUrls == Overlay(d.imageUrls, p.imageUrls)
    ensures r.status == Overlay(d.status, p.status) && r.isFeatured == Overlay(d.isFeatured, p.isFeatured)
  {
    Product(p.id, Overlay(d.title, p.title), Overlay(d.description, p.description),
      Overlay(d.price, p.price), Overlay(d.originalPrice, p.originalPrice),
      Overlay(d.size, p.size), Overlay(d.condition, p.condition),
      Overlay(d.brand, p.brand), Overlay(d.color, p.color),
      Overlay(d.material, p.material), Overlay(d.categoryId, p.categoryId),
      Overlay(d.sellerId, p.sellerId), Overlay(d.imageUrls, p.imageUrls),
      Overlay(d.status, p.status), p.viewCount, Overlay(d.isFeatured, p.isFeatured),
      p.createdAt, now)
  }

  /** Later keys win in an object spread: `{ ...{ ...p, ...a }, ...b }` is `{ ...p, ...(a then b) }`. */
  function Then<T>(a: Option<T>, b: Option<T>): (r: Option<T>)
    ensures b.Some? ==> r == b
    ensures b.None? ==> r == a
  {
    if b.Some? then b else a
  }

  function MergedPatch(a: ProductPatch, b: ProductPatch): ProductPatch
  {
    ProductPatch(Then(a.title, b.title), Then(a.description, b.description),
      Then(a.price, b.price), Then(a.originalPrice, b.originalPrice),
      Then(a.size, b.size), Then(a.condition, b.condition), Then(a.brand, b.brand),
      Then(a.color, b.color), Then(a.material, b.material),
      Then(a.categoryId, b.categoryId), Then(a.sellerId, b.sellerId),
      Then(a.imageUrls, b.imageUrls), Then(a.status, b.status),
      Then(a.isFeatured, b.isFeatured))
  }

  /** Two updates in a row are one update with the merged patch. */
  lemma UpdatesCompose(p: Product, a: ProductPatch, b: ProductPatch, t1: Time, t2: Time)
    ensures UpdatedProduct(UpdatedProduct(p, a, t1), b, t2) == UpdatedProduct(p, MergedPatch(a, b), t2)
  {
  }

  /** `{ ...insertOrder, id, status: "pending", … }`. */
  function NewOrder(id: int, o: InsertOrder, now: Time): (r: Order)
    ensures r.id == id && r.status == "pending" && r.createdAt == now && r.updatedAt == now
    ensures r.buyerId == o.buyerId && r.sellerId == o.sellerId
    ensures r.productId == o.productId && r.amount == o.amount
  {
    Order(id, o.buyerId, o.sellerId, o.productId, o.amount, "pending", now, now)
  }

  /** `{ ...insertMessage, id, productId: … || null, isRead: false, … }`. */
  function NewMessage(id: int, m: InsertMessage, now: Time): (r: Message)
    ensures r.id == id && r.isRead == Some(false) && r.createdAt == now
    ensures r.senderId == m.senderId && r.receiverId == m.receiverId && r.content == m.content
    ensures r.productId.Some? <==> NumberGiven(m.productId)
    ensures r.productId.Some? ==> r.productId == m.productId
  {
    Message(id, m.senderId, m.receiverId, NumberOrNull(m.productId), m.content, Some(false), now)
  }

  /** `{ ...insertFavorite, id, createdAt }`. */
  function NewFavorite(id: int, f: InsertFavorite, now: Time): (r: Favorite)
    ensures r.id == id && r.userId == f.userId && r.productId == f.productId && r.createdAt == now
  {
    Favorite(id, f.userId, f.productId, now)
  }

  /** `{ ...insertReview, id, comment: … || null, … }`. */
  function NewReview(id: int, r: InsertReview, now: Time): (v: Review)
    ensures v.id == id && v.createdAt == now
    ensures v.reviewerId == r.reviewerId && v.revieweeId == r.revieweeId
    ensures v.orderId == r.orderId && v.rating == r.rating
    ensures v.comment.Some? <==> TextGiven(r.comment)
    ensures v.comment.Some? ==> v.comment == r.comment
  {
    Review(id, r.reviewerId, r.revieweeId, r.orderId, r.rating, TextOrNull(r.comment), now)
  }
}
