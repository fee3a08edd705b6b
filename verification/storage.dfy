/**
 * The persistence layer as a value: the `users` and `products` tables keyed by
 * their serial ids, with the next id of each serial sequence. The database
 * constraints of the schema (unique usernames, the owner foreign key and its
 * cascading delete) are enforced here, so every operation keeps `Valid`.
 */
module Storage {
  import opened Wrappers
  import opened Schema

  datatype Store = Store(
    users: map<nat, User>,
    products: map<nat, Product>,
    nextUserId: nat,
    nextProductId: nat)

  /** Freshly migrated tables: both serial sequences start at 1. */
  const Empty: Store := Store(map[], map[], 1, 1)

  ghost predicate UniqueUsernames(users: map<nat, User>) {
    forall a, b :: a in users && b in users && users[a].username == users[b].username ==> a == b
  }

  ghost predicate Valid(s: Store) {
    && 1 <= s.nextUserId && 1 <= s.nextProductId
    && (forall id :: id in s.users ==> s.users[id].id == id && 1 <= id < s.nextUserId)
    && (forall id :: id in s.products ==>
          s.products[id].id == id && 1 <= id < s.nextProductId && s.products[id].userId in s.users)
    && UniqueUsernames(s.users)
  }

  lemma EmptyValid()
    ensures Valid(Empty)
  {
  }

  /** Some stored user has this username. */
  ghost predicate Taken(s: Store, name: string) {
    exists id :: id in s.users && s.users[id].username == name
  }

  // ---------------------------------------------------------------------------
  // Users

  function GetUser(s: Store, id: nat): (r: Option<User>)
    ensures r.Some? <==> id in s.users
    ensures r.Some? ==> r.value == s.users[id]
  {
    if id in s.users then Some(s.users[id]) else None
  }

  /** Searches the ids below `n` for the username, highest id first. */
  function FindUsername(users: map<nat, User>, name: string, n: nat): (r: Option<User>)
    ensures r.Some? ==> r.value.username == name && exists id :: id < n && id in users && users[id] == r.value
    ensures r.None? ==> forall id :: id < n && id in users ==> users[id].username != name
  {
    if n == 0 then None
    else if n - 1 in users && users[n - 1].username == name then Some(users[n - 1])
    else FindUsername(users, name, n - 1)
  }

  /** Exact, case-sensitive lookup by username. */
  function GetUserByUsername(s: Store, name: string): (r: Option<User>)
    ensures Valid(s) ==> (r.Some? <==> Taken(s, name))
    ensures Valid(s) && r.Some? ==>
      r.value.username == name && r.value.id in s.users && s.users[r.value.id] == r.value
  {
    FindUsername(s.users, name, s.nextUserId)
  }

  /** Inserts a user with the next serial id; the unique constraint on `username` rejects a duplicate. */
  function CreateUser(s: Store, username: string, password: string,
                      firstName: Option<string>, lastName: Option<string>, email: Option<string>)
    : (r: Result<(Store, User), string>)
    ensures Valid(s) ==> (r.Success? <==> !Taken(s, username))
    ensures r.Success? ==>
      var (s', u) := r.value;
      && u == User(s.nextUserId, username, password, firstName, lastName, email)
      && s'.users == s.users[u.id := u] && s'.products == s.products
    ensures r.Success? && Valid(s) ==> Valid(r.value.0) && r.value.0.users.Keys == s.users.Keys + {r.value.1.id}
  {
    if GetUserByUsername(s, username).Some? then Failure("duplicate key value violates unique constraint")
    else
      var u := User(s.nextUserId, username, password, firstName, lastName, email);
      Success((s.(users := s.users[u.id := u], nextUserId := s.nextUserId + 1), u))
  }

  /** The profile update sets at least one column: the query builder refuses an empty `set`. */
  predicate ProfileHasValues(data: ProfileUpdate) {
    data.firstName.Some? || data.lastName.Some? || data.email.Some?
  }

  /** Sets the profile fields present in `data`; an empty update and an unknown id are errors. */
  function UpdateUserProfile(s: Store, id: nat, data: ProfileUpdate): (r: Result<(Store, User), string>)
    ensures r.Success? <==> id in s.users && ProfileHasValues(data)
    ensures r.Success? ==>
      var (s', u) := r.value;
      var before := s.users[id];
      && s'.users == s.users[id := u] && s'.products == s.products
      && u.id == before.id && u.username == before.username && u.password == before.password
      && u.firstName == (if data.firstName.Some? then data.firstName else before.firstName)
      && u.lastName == (if data.lastName.Some? then data.lastName else before.lastName)
      && u.email == (if data.email.Some? then data.email else before.email)
    ensures r.Success? && Valid(s) ==> Valid(r.value.0)
  {
    if !ProfileHasValues(data) then Failure("No values to set")
    else if id !in s.users then Failure("User not found")
    else
      var before := s.users[id];
      var u := before.(firstName := if data.firstName.Some? then data.firstName else before.firstName,
                    lastName := if data.lastName.Some? then data.lastName else before.lastName,
                    email := if data.email.Some? then data.email else before.email);
      Success((s.(users := s.users[id := u]), u))
  }

  /** Replaces the stored digest of one user; every other field and row is kept. */
  function UpdateUserPassword(s: Store, id: nat, digest: string): (s': Store)
    ensures id in s.users ==> s'.users == s.users[id := s.users[id].(password := digest)]
    ensures id !in s.users ==> s' == s
    ensures s'.products == s.products
    ensures Valid(s) ==> Valid(s')
  {
    if id in s.users then s.(users := s.users[id := s.users[id].(password := digest)]) else s
  }

  /**
   * Deletes a user. The owner foreign key cascades: exactly that user's products
   * go with it. No route of the application calls this.
   */
  function DeleteUser(s: Store, id: nat): (s': Store)
    ensures id !in s'.users && s'.users.Keys == s.users.Keys - {id}
    ensures forall u :: u in s'.users ==> s'.users[u] == s.users[u]
    ensures forall p :: p in s'.products <==> p in s.products && s.products[p].userId != id
    ensures forall p :: p in s'.products ==> s'.products[p] == s.products[p]
    ensures Valid(s) ==> Valid(s')
  {
    s.(users := s.users - {id},
       products := map p | p in s.products && s.products[p].userId != id :: s.products[p])
  }

  // ---------------------------------------------------------------------------
  // Products

  function GetProduct(s: Store, id: int): (r: Option<Product>)
    ensures r.Some? <==> id >= 0 && id as nat in s.products
    ensures r.Some? ==> r.value == s.products[id as nat]
  {
    if id >= 0 && id as nat in s.products then Some(s.products[id as nat]) else None
  }

  /** The products of `owner` with ids below `n`, by increasing id. */
  function OwnedBelow(products: map<nat, Product>, owner: nat, n: nat): (r: seq<Product>)
    ensures forall p :: p in r <==> exists id :: id < n && id in products && products[id] == p && p.userId == owner
    ensures (forall id :: id in products ==> products[id].id == id) ==>
      forall i, j :: 0 <= i < j < |r| ==> r[i].id < r[j].id < n
  {
    if n == 0 then []
    else
      var prefix := OwnedBelow(products, owner, n - 1);
      if n - 1 in products && products[n - 1].userId == owner then prefix + [products[n - 1]] else prefix
  }

  /** `getProductsByUserId`: none for a missing or zero id, otherwise the owner's rows by increasing id. */
  function GetProductsByUserId(s: Store, owner: Option<nat>): (r: seq<Product>)
    ensures owner.None? || owner.value == 0 ==> r == []
    ensures Valid(s) && owner.Some? && owner.value != 0 ==>
      forall p :: p in r <==> p.id in s.products && s.products[p.id] == p && p.userId == owner.value
  {
    if owner.None? || owner.value == 0 then []
    else OwnedBelow(s.products, owner.value, s.nextProductId)
  }

  /** Inserts a product with the next serial id; the foreign key rejects an unknown owner. */
  function CreateProduct(s: Store, data: InsertProduct, owner: nat): (r: Result<(Store, Product), string>)
    ensures r.Success? <==> owner in s.users
    ensures r.Success? ==>
      var (s', p) := r.value;
      && p.id == s.nextProductId && p.userId == owner
      && p.name == data.name && p.description == data.description && p.category == data.category
      && p.price == data.price && p.rating == data.rating.GetOr(DefaultRating) && p.imageUrl == data.imageUrl
      && s'.products == s.products[p.id := p] && s'.users == s.users
    ensures r.Success? && Valid(s) ==> Valid(r.value.0) && r.value.1.id !in s.products
  {
    if owner !in s.users then Failure("violates foreign key constraint")
    else
      var p := Product(s.nextProductId, data.name, data.description, data.category, data.price,
                       data.rating.GetOr(DefaultRating), data.imageUrl, owner);
      Success((s.(products := s.products[p.id := p], nextProductId := s.nextProductId + 1), p))
  }

  /** The row after `data` is applied: present members replace, absent ones keep the stored value. */
  function Merge(p: Product, data: UpdateProduct): (q: Product)
    ensures q.id == p.id && q.userId == p.userId
    ensures data.name.Some? ==> q.name == data.name.value
    ensures data.name.None? ==> q.name == p.name
    ensures data.description.Some? ==> q.description == data.description.value
    ensures data.description.None? ==> q.description == p.description
    ensures data.category.Some? ==> q.category == data.category.value
    ensures data.category.None? ==> q.category == p.category
    ensures data.price.Some? ==> q.price == data.price.value
    ensures data.price.None? ==> q.price == p.price
    ensures data.rating.Some? ==> q.rating == data.rating.value
    ensures data.rating.None? ==> q.rating == p.rating
    ensures data.imageUrl.Some? ==> q.imageUrl == data.imageUrl.value
    ensures data.imageUrl.None? ==> q.imageUrl == p.imageUrl
  {
    p.(name := data.name.GetOr(p.name),
       description := data.description.GetOr(p.description),
       category := data.category.GetOr(p.category),
       price := data.price.GetOr(p.price),
       rating := data.rating.GetOr(p.rating),
       imageUrl := data.imageUrl.GetOr(p.imageUrl))
  }

  /** The product update sets at least one column: the query builder refuses an empty `set`. */
  predicate HasValues(data: UpdateProduct) {
    || data.name.Some? || data.description.Some? || data.category.Some?
    || data.price.Some? || data.rating.Some? || data.imageUrl.Some?
  }

  /** Applies `data` to the row `id`; an empty update and an unknown id are errors. */
  function UpdateProduct(s: Store, id: int, data: UpdateProduct): (r: Result<(Store, Product), string>)
    ensures r.Success? <==> id >= 0 && id as nat in s.products && HasValues(data)
    ensures r.Success? ==>
      var (s', p) := r.value;
      && p == Merge(s.products[id as nat], data)
      && s'.products == s.products[id as nat := p] && s'.users == s.users
    ensures r.Success? && Valid(s) ==> Valid(r.value.0)
  {
    if !HasValues(data) then Failure("No values to set")
    else if id < 0 || id as nat !in s.products then Failure("Product not found")
    else
      var p := Merge(s.products[id as nat], data);
      Success((s.(products := s.products[id as nat := p]), p))
  }

  function DeleteProduct(s: Store, id: int): (s': Store)
    ensures s'.users == s.users
    ensures s'.products.Keys == s.products.Keys - (if id >= 0 then {id as nat} else {})
    ensures forall p :: p in s'.products ==> s'.products[p] == s.products[p]
    ensures Valid(s) ==> Valid(s')
  {
    if id >= 0 then s.(products := s.products - {id as nat}) else s
  }
}
