/**
 * The product routes under `/api/products`. Every route first runs the
 * `isAuthenticated` guard; the routes that name a product by id answer 404 for a
 * missing row and 403 for another user's row before they read or change it.
 */
module Routes {
  import opened Wrappers
  import opened Seqs
  import opened Sorting
  import opened Json
  import opened Schema
  import opened Storage
  import opened Http
  import opened Runtime
  import opened ProductQuery

  datatype ProductRequest =
    | CreateRequest(body: Object)          // POST /api/products
    | ListRequest(query: Object)           // GET /api/products
    | ReadRequest(id: int)                 // GET /api/products/:id
    | PatchRequest(id: int, body: Object)  // PATCH /api/products/:id
    | DeleteRequest(id: int)               // DELETE /api/products/:id

  const NotFound: Response := Response(404, Text("Product not found"))
  const Forbidden: Response := Response(403, Text("Forbidden"))

  /** The ownership test of the routes: `product.userId !== req.user?.id` forbids. */
  predicate Owns(u: User, p: Product) {
    p.userId == u.id
  }

  /** The row `id` exists and belongs to `u`. */
  predicate OwnedBy(s: Store, u: User, id: int) {
    GetProduct(s, id).Some? && Owns(u, GetProduct(s, id).value)
  }

  /** The lookup and ownership checks shared by the routes that take an id: 404, then 403. */
  function Access(s: Store, u: User, id: int): (r: Option<Response>)
    ensures r.None? <==> OwnedBy(s, u, id)
    ensures r == Some(NotFound) <==> GetProduct(s, id).None?
    ensures r == Some(Forbidden) <==> GetProduct(s, id).Some? && !Owns(u, GetProduct(s, id).value)
  {
    match GetProduct(s, id)
    case None => Some(NotFound)
    case Some(p) => if !Owns(u, p) then Some(Forbidden) else None
  }

  /** POST: a body the insert schema rejects is a 400; otherwise the row is created for the session's user. */
  function Create(s: Store, u: User, body: Object): (r: (Store, Response))
    ensures ParseInsertProduct(body).Failure? ==> r == (s, Response(400, IssueList(ParseInsertProduct(body).error)))
    ensures r.1.status == 201 <==> ParseInsertProduct(body).Success? && u.id != 0 && u.id in s.users
    ensures r.1.status == 201 ==>
      var data := ParseInsertProduct(body).value;
      && r.1.payload.ProductBody?
      && var p := r.1.payload.product;
      && p.id == s.nextProductId && p.userId == u.id
      && p.name == data.name && p.description == data.description && p.category == data.category
      && p.price == data.price && p.rating == data.rating.GetOr(DefaultRating) && p.imageUrl == data.imageUrl
      && r.0.products == s.products[p.id := p] && r.0.users == s.users
    ensures r.1.status != 201 ==> r.0 == s
    ensures Valid(s) ==> Valid(r.0)
  {
    match ParseInsertProduct(body)
    case Failure(issues) => (s, Response(400, IssueList(issues)))
    case Success(data) =>
      if u.id == 0 then (s, Response(401, Text("User not authenticated")))
      else match CreateProduct(s, data, u.id)
        case Failure(_) => (s, ServerError)
        case Success((s', p)) => (s', Response(201, ProductBody(p)))
  }

  /** GET: the user's own rows, narrowed and sorted by the query. */
  function List(s: Store, u: User, query: Object, env: Builtins): (r: Response)
    ensures r.status == 400 <==> ParseProductFilter(query).Failure?
    ensures r.status != 400 ==> r.status == 200 && r.payload.ProductList?
    ensures Valid(s) && u.id != 0 && r.status == 200 ==>
      var f := ParseProductFilter(query).value;
      forall p :: p in r.payload.products <==>
        p.id in s.products && s.products[p.id] == p && Owns(u, p) && Selected(f, env, p)
    ensures r.status == 200 ==>
      var f := ParseProductFilter(query).value;
      var rows := GetProductsByUserId(s, Some(u.id));
      && multiset(r.payload.products) == multiset(Filter(rows, Criteria(f, env)))
      && (Truthy(f.sortBy) ==> PairwiseOrdered(r.payload.products, Compare(f.sortBy.value, env.localeCompare)))
      && (Truthy(f.sortBy) ==> forall x ::
            var ties := TiesWith(x, Compare(f.sortBy.value, env.localeCompare));
            Filter(r.payload.products, ties) == Filter(Filter(rows, Criteria(f, env)), ties))
      && (!Truthy(f.sortBy) || f.sortBy.value !in SortKeys ==> r.payload.products == Filter(rows, Criteria(f, env)))
  {
    match ParseProductFilter(query)
    case Failure(issues) => Response(400, IssueList(issues))
    case Success(f) =>
      var rows := GetProductsByUserId(s, Some(u.id));
      assert Truthy(f.sortBy) ==> PairwiseOrdered(ApplyProductFilters(f, rows, env), Compare(f.sortBy.value, env.localeCompare)) by {
        if Truthy(f.sortBy) { ListingOrdered(f, rows, env); }
      }
      assert Truthy(f.sortBy) ==> forall x ::
          var ties := TiesWith(x, Compare(f.sortBy.value, env.localeCompare));
          Filter(ApplyProductFilters(f, rows, env), ties) == Filter(Filter(rows, Criteria(f, env)), ties) by {
        if Truthy(f.sortBy) {
          forall x: Product ensures
              var ties := TiesWith(x, Compare(f.sortBy.value, env.localeCompare));
              Filter(ApplyProductFilters(f, rows, env), ties) == Filter(Filter(rows, Criteria(f, env)), ties) {
            ListingKeepsTieOrder(f, rows, env, x);
          }
        }
      }
      assert !Truthy(f.sortBy) || f.sortBy.value !in SortKeys ==> ApplyProductFilters(f, rows, env) == Filter(rows, Criteria(f, env)) by {
        if !Truthy(f.sortBy) || f.sortBy.value !in SortKeys { UnsortedKeepsOrder(f, rows, env); }
      }
      Response(200, ProductList(ApplyProductFilters(f, rows, env)))
  }

  /** GET by id: the row itself, only to its owner. */
  function Read(s: Store, u: User, id: int): (r: Response)
    ensures r.status == 200 <==> OwnedBy(s, u, id)
    ensures r.status == 200 ==> r.payload == ProductBody(s.products[id as nat])
    ensures r.status != 200 ==> Some(r) == Access(s, u, id)
  {
    match Access(s, u, id)
    case Some(denied) => denied
    case None => Response(200, ProductBody(GetProduct(s, id).value))
  }

  /**
   * PATCH: the body is validated before the row is looked up, so a bad body is a 400
   * even for a missing id; a valid body with no known member reaches the store,
   * which refuses to set nothing, and the error handler answers 500.
   */
  function Patch(s: Store, u: User, id: int, body: Object): (r: (Store, Response))
    ensures ParseUpdateProduct(body).Failure? ==> r == (s, Response(400, IssueList(ParseUpdateProduct(body).error)))
    ensures ParseUpdateProduct(body).Success? && !OwnedBy(s, u, id) ==> r.0 == s && Some(r.1) == Access(s, u, id)
    ensures ParseUpdateProduct(body).Success? && OwnedBy(s, u, id) && !HasValues(ParseUpdateProduct(body).value) ==>
      r == (s, ServerError)
    ensures r.1.status == 200 <==>
      ParseUpdateProduct(body).Success? && OwnedBy(s, u, id) && HasValues(ParseUpdateProduct(body).value)
    ensures r.1.status == 200 ==>
      var q := Merge(s.products[id as nat], ParseUpdateProduct(body).value);
      && r.1.payload == ProductBody(q)
      && r.0.products == s.products[id as nat := q] && r.0.users == s.users
    ensures Valid(s) ==> Valid(r.0)
  {
    match ParseUpdateProduct(body)
    case Failure(issues) => (s, Response(400, IssueList(issues)))
    case Success(data) =>
      match Access(s, u, id)
      case Some(denied) => (s, denied)
      case None =>
        match Storage.UpdateProduct(s, id, data)
        case Failure(_) => (s, ServerError)
        case Success((s', q)) => (s', Response(200, ProductBody(q)))
  }

  /** DELETE: removes the row of its owner and answers 204 with no body. */
  function Delete(s: Store, u: User, id: int): (r: (Store, Response))
    ensures r.1.status == 204 <==> OwnedBy(s, u, id)
    ensures r.1.status == 204 ==>
      && r.1.payload == NoContent
      && r.0.users == s.users && r.0.products.Keys == s.products.Keys - {id as nat}
      && forall k :: k in r.0.products ==> r.0.products[k] == s.products[k]
    ensures r.1.status != 204 ==> r.0 == s && Some(r.1) == Access(s, u, id)
    ensures Valid(s) ==> Valid(r.0)
  {
    match Access(s, u, id)
    case Some(denied) => (s, denied)
    case None => (DeleteProduct(s, id), Response(204, NoContent))
  }

  /** Dispatches one product request behind the `isAuthenticated` guard. */
  function HandleProductRequest(s: Store, session: Session, req: ProductRequest, env: Builtins): (r: Reply)
    ensures r.session == session
    ensures StaleSession(s, session) ==> r.response == ServerError && r.store == s
    ensures session.None? ==> r.response == Unauthorized && r.store == s
    ensures req.ListRequest? || req.ReadRequest? ==> r.store == s
    ensures Valid(s) ==> Valid(r.store)
  {
    if StaleSession(s, session) then Reply(s, session, ServerError)
    else match CurrentUser(s, session)
    case None => Reply(s, session, Unauthorized)
    case Some(u) =>
      match req
      case CreateRequest(body) => var (s', resp) := Create(s, u, body); Reply(s', session, resp)
      case ListRequest(query) => Reply(s, session, List(s, u, query, env))
      case ReadRequest(id) => Reply(s, session, Read(s, u, id))
      case PatchRequest(id, body) => var (s', resp) := Patch(s, u, id, body); Reply(s', session, resp)
      case DeleteRequest(id) => var (s', resp) := Delete(s, u, id); Reply(s', session, resp)
  }

  // ---------------------------------------------------------------------------
  // Properties

  /** The id of the request, for the three routes that take one. */
  function TargetOf(req: ProductRequest): Option<int> {
    match req
    case ReadRequest(id) => Some(id)
    case PatchRequest(id, _) => Some(id)
    case DeleteRequest(id) => Some(id)
    case _ => None
  }

  /**
   * Another user's product can be neither read nor changed: the store is
   * untouched and the answer is a 403 (or a 400 for a PATCH body the schema rejects).
   */
  lemma ForeignProductUntouched(s: Store, session: Session, req: ProductRequest, env: Builtins)
    requires CurrentUser(s, session).Some? && TargetOf(req).Some?
    requires var p := GetProduct(s, TargetOf(req).value); p.Some? && p.value.userId != CurrentUser(s, session).value.id
    ensures var r := HandleProductRequest(s, session, req, env);
      && r.store == s
      && r.response.status in {400, 403}
      && (!req.PatchRequest? ==> r.response == Forbidden)
  {
  }

  /** A product id with no row is a 404 and changes nothing, unless a PATCH body is invalid first. */
  lemma MissingProductIsNotFound(s: Store, session: Session, req: ProductRequest, env: Builtins)
    requires CurrentUser(s, session).Some? && TargetOf(req).Some?
    requires GetProduct(s, TargetOf(req).value).None?
    requires req.PatchRequest? ==> ParseUpdateProduct(req.body).Success?
    ensures var r := HandleProductRequest(s, session, req, env);
      r.store == s && r.response == NotFound
  {
  }

  /** Only the owner's create, patch and delete requests change the store. */
  lemma OnlyOwnersWrite(s: Store, session: Session, req: ProductRequest, env: Builtins)
    requires HandleProductRequest(s, session, req, env).store != s
    ensures CurrentUser(s, session).Some?
    ensures req.CreateRequest? || (TargetOf(req).Some? && OwnedBy(s, CurrentUser(s, session).value, TargetOf(req).value))
  {
  }

  /** A created product can be read back by its creator, unchanged. */
  lemma CreateThenRead(s: Store, u: User, body: Object)
    requires Valid(s) && u.id in s.users
    requires Create(s, u, body).1.status == 201
    ensures var (s', resp) := Create(s, u, body);
      Read(s', u, resp.payload.product.id as int) == Response(200, resp.payload)
  {
  }

  /** A patched product reads back as the patch response. */
  lemma PatchThenRead(s: Store, u: User, id: int, body: Object)
    requires Patch(s, u, id, body).1.status == 200
    ensures var (s', resp) := Patch(s, u, id, body);
      Read(s', u, id) == resp
  {
  }

  /** A deleted product is gone: reading it again is a 404. */
  lemma DeleteThenRead(s: Store, u: User, id: int)
    requires Delete(s, u, id).1.status == 204
    ensures Read(Delete(s, u, id).0, u, id) == NotFound
  {
  }

  /** Every listed product is a stored row of the session's user. */
  lemma ListingShowsOnlyOwnRows(s: Store, session: Session, query: Object, env: Builtins)
    requires Valid(s)
    requires HandleProductRequest(s, session, ListRequest(query), env).response.status == 200
    ensures var u := CurrentUser(s, session).value;
      var ps := HandleProductRequest(s, session, ListRequest(query), env).response.payload.products;
      forall p :: p in ps ==> p.id in s.products && s.products[p.id] == p && p.userId == u.id
  {
  }
}
