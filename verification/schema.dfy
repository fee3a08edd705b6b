/**
 * The records of the two tables and the request schemas checked against them:
 * the product insert and update bodies, the profile and password updates, and the
 * product-listing query. A schema parse either yields the typed record or the list
 * of issues zod reports, in the order of the schema's fields.
 */
module Schema {
  import opened Wrappers
  import opened Json

  /** A row of `users`. `password` holds the digest, never the plain text. */
  datatype User = User(
    id: nat,
    username: string,
    password: string,
    firstName: Option<string>,
    lastName: Option<string>,
    email: Option<string>)

  /** A row of `products`; `userId` references the owning user. */
  datatype Product = Product(
    id: nat,
    name: string,
    description: string,
    category: string,
    price: real,
    rating: real,
    imageUrl: Option<string>,
    userId: nat)

  /** The column default of `products.rating`. */
  const DefaultRating: real := 0.0

  /** The query of the product listing; every member is an optional, unconstrained string. */
  datatype ProductFilter = ProductFilter(
    category: Option<string>,
    priceRange: Option<string>,
    rating: Option<string>,
    search: Option<string>,
    sortBy: Option<string>)

  /** A valid create-product body. A missing `imageUrl` and a null one both store NULL. */
  datatype InsertProduct = InsertProduct(
    name: string,
    description: string,
    category: string,
    price: real,
    rating: Option<real>,
    imageUrl: Option<string>)

  /** A valid update-product body: any subset of the insertable fields; `imageUrl` may be set to null. */
  datatype UpdateProduct = UpdateProduct(
    name: Option<string>,
    description: Option<string>,
    category: Option<string>,
    price: Option<real>,
    rating: Option<real>,
    imageUrl: Option<Option<string>>)

  datatype ProfileUpdate = ProfileUpdate(firstName: Option<string>, lastName: Option<string>, email: Option<string>)

  datatype PasswordUpdate = PasswordUpdate(currentPassword: string, newPassword: string, confirmPassword: string)

  /** zod's issue codes as far as these schemas raise them. */
  datatype IssueCode = InvalidType | TooSmall(minimum: nat) | InvalidEmail | Mismatch

  /** One validation issue, reported on the path of one field. */
  datatype Issue = Issue(path: string, code: IssueCode)

  // ---------------------------------------------------------------------------
  // Field shapes

  predicate IsString(body: Object, key: string) {
    key in body && body[key].JString?
  }

  predicate IsNumber(body: Object, key: string) {
    key in body && body[key].JNumber?
  }

  predicate AbsentOrString(body: Object, key: string) {
    key !in body || body[key].JString?
  }

  predicate AbsentOrNumber(body: Object, key: string) {
    key !in body || body[key].JNumber?
  }

  predicate AbsentNullOrString(body: Object, key: string) {
    key !in body || body[key].JNull? || body[key].JString?
  }

  function IssuesOf<T>(r: Result<T, Issue>): (issues: seq<Issue>)
    ensures r.Success? ==> issues == []
    ensures r.Failure? ==> issues == [r.error]
  {
    if r.Failure? then [r.error] else []
  }

  /** `z.string()`: a missing member is an invalid_type issue too. */
  function RequiredString(body: Object, key: string): (r: Result<string, Issue>)
    ensures r.Success? <==> IsString(body, key)
    ensures r.Failure? ==> r.error.path == key
  {
    if IsString(body, key) then Success(body[key].s) else Failure(Issue(key, InvalidType))
  }

  /** `z.number()`. */
  function RequiredNumber(body: Object, key: string): (r: Result<real, Issue>)
    ensures r.Success? <==> IsNumber(body, key)
    ensures r.Failure? ==> r.error.path == key
  {
    if IsNumber(body, key) then Success(body[key].n) else Failure(Issue(key, InvalidType))
  }

  /** `z.string().optional()`. */
  function OptionalString(body: Object, key: string): (r: Result<Option<string>, Issue>)
    ensures r.Success? <==> AbsentOrString(body, key)
    ensures r.Success? ==> (r.value.Some? <==> key in body)
    ensures r.Success? && r.value.Some? ==> body[key] == JString(r.value.value)
    ensures r.Failure? ==> r.error.path == key
  {
    if key !in body then Success(None)
    else if body[key].JString? then Success(Some(body[key].s))
    else Failure(Issue(key, InvalidType))
  }

  /** `z.number().optional()`. */
  function OptionalNumber(body: Object, key: string): (r: Result<Option<real>, Issue>)
    ensures r.Success? <==> AbsentOrNumber(body, key)
    ensures r.Success? ==> (r.value.Some? <==> key in body)
    ensures r.Success? && r.value.Some? ==> body[key] == JNumber(r.value.value)
    ensures r.Failure? ==> r.error.path == key
  {
    if key !in body then Success(None)
    else if body[key].JNumber? then Success(Some(body[key].n))
    else Failure(Issue(key, InvalidType))
  }

  /** `z.string().nullable().optional()`: absent, null, or a string. */
  function NullableString(body: Object, key: string): (r: Result<Option<Option<string>>, Issue>)
    ensures r.Success? <==> AbsentNullOrString(body, key)
    ensures r.Success? ==> (r.value.Some? <==> key in body)
    ensures r.Success? ==> (r.value == Some(None) <==> key in body && body[key] == JNull)
    ensures r.Success? && r.value.Some? && r.value.value.Some? ==> body[key] == JString(r.value.value.value)
    ensures r.Failure? ==> r.error.path == key
  {
    if key !in body then Success(None)
    else if body[key].JNull? then Success(Some(None))
    else if body[key].JString? then Success(Some(Some(body[key].s)))
    else Failure(Issue(key, InvalidType))
  }

  /** `.min(n)` on a string: a too_small issue when shorter than `n`. */
  function MinLength(path: string, s: string, n: nat): (issues: seq<Issue>)
    ensures issues == [] <==> |s| >= n
    ensures issues != [] ==> issues == [Issue(path, TooSmall(n))]
  {
    if |s| < n then [Issue(path, TooSmall(n))] else []
  }

  // ---------------------------------------------------------------------------
  // insertProductSchema and updateProductSchema

  /** `insertProductSchema.parse`: name, description, category and price are required; unknown members are dropped. */
  function ParseInsertProduct(body: Object): (r: Result<InsertProduct, seq<Issue>>)
    ensures r.Success? <==>
      && IsString(body, "name") && IsString(body, "description") && IsString(body, "category")
      && IsNumber(body, "price") && AbsentOrNumber(body, "rating") && AbsentNullOrString(body, "imageUrl")
    ensures r.Success? ==>
      && r.value.name == body["name"].s
      && r.value.description == body["description"].s
      && r.value.category == body["category"].s
      && r.value.price == body["price"].n
      && (r.value.rating.Some? <==> "rating" in body)
      && (r.value.rating.Some? ==> r.value.rating.value == body["rating"].n)
      && (r.value.imageUrl.Some? <==> "imageUrl" in body && body["imageUrl"].JString?)
      && (r.value.imageUrl.Some? ==> r.value.imageUrl.value == body["imageUrl"].s)
    ensures r.Failure? ==> |r.error| > 0
  {
    var name := RequiredString(body, "name");
    var description := RequiredString(body, "description");
    var category := RequiredString(body, "category");
    var price := RequiredNumber(body, "price");
    var rating := OptionalNumber(body, "rating");
    var imageUrl := NullableString(body, "imageUrl");
    if name.Failure? || description.Failure? || category.Failure?
       || price.Failure? || rating.Failure? || imageUrl.Failure?
    then
      Failure(IssuesOf(name) + IssuesOf(description) + IssuesOf(category)
              + IssuesOf(price) + IssuesOf(rating) + IssuesOf(imageUrl))
    else
      Success(InsertProduct(name.value, description.value, category.value, price.value, rating.value,
                            if imageUrl.value.Some? then imageUrl.value.value else None))
  }

  /** `updateProductSchema.parse` (the insert schema made partial): every member is optional, present ones are type-checked. */
  function ParseUpdateProduct(body: Object): (r: Result<UpdateProduct, seq<Issue>>)
    ensures r.Success? <==>
      && AbsentOrString(body, "name") && AbsentOrString(body, "description") && AbsentOrString(body, "category")
      && AbsentOrNumber(body, "price") && AbsentOrNumber(body, "rating") && AbsentNullOrString(body, "imageUrl")
    ensures r.Success? ==>
      && (r.value.name.Some? <==> "name" in body)
      && (r.value.description.Some? <==> "description" in body)
      && (r.value.category.Some? <==> "category" in body)
      && (r.value.price.Some? <==> "price" in body)
      && (r.value.rating.Some? <==> "rating" in body)
      && (r.value.imageUrl.Some? <==> "imageUrl" in body)
    ensures r.Success? ==>
      && (r.value.name.Some? ==> body["name"] == JString(r.value.name.value))
      && (r.value.description.Some? ==> body["description"] == JString(r.value.description.value))
      && (r.value.category.Some? ==> body["category"] == JString(r.value.category.value))
      && (r.value.price.Some? ==> body["price"] == JNumber(r.value.price.value))
      && (r.value.rating.Some? ==> body["rating"] == JNumber(r.value.rating.value))
      && (r.value.imageUrl == Some(None) <==> "imageUrl" in body && body["imageUrl"] == JNull)
      && (r.value.imageUrl.Some? && r.value.imageUrl.value.Some? ==>
            body["imageUrl"] == JString(r.value.imageUrl.value.value))
    ensures r.Failure? ==> |r.error| > 0
  {
    var name := OptionalString(body, "name");
    var description := OptionalString(body, "description");
    var category := OptionalString(body, "category");
    var price := OptionalNumber(body, "price");
    var rating := OptionalNumber(body, "rating");
    var imageUrl := NullableString(body, "imageUrl");
    if name.Failure? || description.Failure? || category.Failure?
       || price.Failure? || rating.Failure? || imageUrl.Failure?
    then
      Failure(IssuesOf(name) + IssuesOf(description) + IssuesOf(category)
              + IssuesOf(price) + IssuesOf(rating) + IssuesOf(imageUrl))
    else Success(UpdateProduct(name.value, description.value, category.value, price.value, rating.value, imageUrl.value))
  }

  /** Every body the insert schema accepts, the partial update schema accepts too. */
  lemma InsertBodyIsUpdateBody(body: Object)
    requires ParseInsertProduct(body).Success?
    ensures ParseUpdateProduct(body).Success?
    ensures var u := ParseUpdateProduct(body).value; var i := ParseInsertProduct(body).value;
      u.name == Some(i.name) && u.description == Some(i.description) && u.category == Some(i.category)
      && u.price == Some(i.price) && u.rating == i.rating
  {
  }

  /** An empty update body passes the schema, and carries no member to set. */
  lemma EmptyUpdateBody()
    ensures ParseUpdateProduct(map[]) == Success(UpdateProduct(None, None, None, None, None, None))
  {
  }

  // ---------------------------------------------------------------------------
  // profileUpdateSchema and passwordUpdateSchema

  /** `profileUpdateSchema.parse`: all members optional; an e-mail, when present, must pass the e-mail check. */
  function ParseProfileUpdate(body: Object, isEmail: string -> bool): (r: Result<ProfileUpdate, seq<Issue>>)
    ensures r.Success? <==>
      && AbsentOrString(body, "firstName") && AbsentOrString(body, "lastName")
      && AbsentOrString(body, "email") && ("email" in body ==> isEmail(body["email"].s))
    ensures r.Success? ==>
      && (r.value.firstName.Some? <==> "firstName" in body)
      && (r.value.lastName.Some? <==> "lastName" in body)
      && (r.value.email.Some? <==> "email" in body)
      && (r.value.email.Some? ==> isEmail(r.value.email.value))
    ensures r.Success? ==>
      && (r.value.firstName.Some? ==> body["firstName"] == JString(r.value.firstName.value))
      && (r.value.lastName.Some? ==> body["lastName"] == JString(r.value.lastName.value))
      && (r.value.email.Some? ==> body["email"] == JString(r.value.email.value))
  {
    var firstName := OptionalString(body, "firstName");
    var lastName := OptionalString(body, "lastName");
    var email :=
      if "email" in body && body["email"].JString? && !isEmail(body["email"].s)
      then Failure(Issue("email", InvalidEmail))
      else OptionalString(body, "email");
    if firstName.Failure? || lastName.Failure? || email.Failure?
    then Failure(IssuesOf(firstName) + IssuesOf(lastName) + IssuesOf(email))
    else Success(ProfileUpdate(firstName.value, lastName.value, email.value))
  }

  /** A string member checked against `.min(n)`; the value is kept when it is a string at all. */
  datatype Checked = Checked(value: Option<string>, issues: seq<Issue>)

  function CheckString(body: Object, key: string, n: nat): (c: Checked)
    ensures c.value.Some? <==> IsString(body, key)
    ensures c.value.Some? ==> c.value.value == body[key].s
    ensures c.issues == [] <==> IsString(body, key) && |body[key].s| >= n
  {
    if IsString(body, key) then Checked(Some(body[key].s), MinLength(key, body[key].s, n))
    else Checked(None, [Issue(key, InvalidType)])
  }

  const MinPasswordLength: nat := 6

  /**
   * `passwordUpdateSchema.parse`. The field checks run first; the refinement that the
   * new password and its confirmation agree runs unless a field has the wrong type,
   * and reports on the `confirmPassword` path.
   */
  function ParsePasswordUpdate(body: Object): (r: Result<PasswordUpdate, seq<Issue>>)
  {
    var current := CheckString(body, "currentPassword", 1);
    var newPassword := CheckString(body, "newPassword", MinPasswordLength);
    var confirm := CheckString(body, "confirmPassword", MinPasswordLength);
    var fieldIssues := current.issues + newPassword.issues + confirm.issues;
    if current.value.None? || newPassword.value.None? || confirm.value.None? then Failure(fieldIssues)
    else
      var refinement :=
        if newPassword.value.value != confirm.value.value then [Issue("confirmPassword", Mismatch)] else [];
      if fieldIssues + refinement != [] then Failure(fieldIssues + refinement)
      else Success(PasswordUpdate(current.value.value, newPassword.value.value, confirm.value.value))
  }

  /** A password update is accepted exactly when all three lengths are met and the two new passwords agree. */
  lemma PasswordUpdateValidity(body: Object)
    ensures ParsePasswordUpdate(body).Success? <==>
      && IsString(body, "currentPassword") && |body["currentPassword"].s| >= 1
      && IsString(body, "newPassword") && |body["newPassword"].s| >= MinPasswordLength
      && IsString(body, "confirmPassword") && |body["confirmPassword"].s| >= MinPasswordLength
      && body["newPassword"].s == body["confirmPassword"].s
    ensures ParsePasswordUpdate(body).Success? ==>
      var u := ParsePasswordUpdate(body).value;
      u.currentPassword == body["currentPassword"].s && u.newPassword == body["newPassword"].s
  {
  }

  /** Disagreeing new passwords are reported on `confirmPassword`, whatever else is wrong, unless a field is not a string. */
  lemma PasswordMismatchReported(body: Object)
    requires IsString(body, "currentPassword") && IsString(body, "newPassword") && IsString(body, "confirmPassword")
    requires body["newPassword"].s != body["confirmPassword"].s
    ensures ParsePasswordUpdate(body).Failure?
    ensures Issue("confirmPassword", Mismatch) in ParsePasswordUpdate(body).error
  {
  }

  /** A member of the wrong type aborts the parse before the refinement runs. */
  lemma PasswordTypeErrorSkipsRefinement(body: Object)
    requires !IsString(body, "newPassword")
    ensures ParsePasswordUpdate(body).Failure?
    ensures Issue("newPassword", InvalidType) in ParsePasswordUpdate(body).error
    ensures Issue("confirmPassword", Mismatch) !in ParsePasswordUpdate(body).error
  {
  }

  // ---------------------------------------------------------------------------
  // productFilterSchema

  const FilterFields: set<string> := {"category", "priceRange", "rating", "search", "sortBy"}

  /**
   * `productFilterSchema.parse` of a parsed query string. Repeated or nested
   * parameters arrive as arrays or objects and fail the string check.
   */
  function ParseProductFilter(query: Object): (r: Result<ProductFilter, seq<Issue>>)
    ensures r.Success? <==> forall k :: k in FilterFields ==> AbsentOrString(query, k)
    ensures r.Failure? ==> |r.error| > 0
  {
    var category := OptionalString(query, "category");
    var priceRange := OptionalString(query, "priceRange");
    var rating := OptionalString(query, "rating");
    var search := OptionalString(query, "search");
    var sortBy := OptionalString(query, "sortBy");
    if category.Failure? || priceRange.Failure? || rating.Failure? || search.Failure? || sortBy.Failure?
    then Failure(IssuesOf(category) + IssuesOf(priceRange) + IssuesOf(rating) + IssuesOf(search) + IssuesOf(sortBy))
    else Success(ProductFilter(category.value, priceRange.value, rating.value, search.value, sortBy.value))
  }

  function WithMember(obj: Object, key: string, value: Option<string>): Object {
    if value.Some? then obj[key := JString(value.value)] else obj
  }

  /** The query string a client sends for a filter: one string parameter per present member. */
  function QueryOf(f: ProductFilter): Object {
    var q := WithMember(map[], "category", f.category);
    var q := WithMember(q, "priceRange", f.priceRange);
    var q := WithMember(q, "rating", f.rating);
    var q := WithMember(q, "search", f.search);
    WithMember(q, "sortBy", f.sortBy)
  }

  /** Any strings at all pass the filter schema unchanged: nothing constrains them before the filter runs. */
  lemma FilterQueryRoundTrip(f: ProductFilter)
    ensures ParseProductFilter(QueryOf(f)) == Success(f)
  {
    var q := QueryOf(f);
    assert forall k :: k in FilterFields ==> AbsentOrString(q, k);
    assert OptionalString(q, "category") == Success(f.category);
    assert OptionalString(q, "priceRange") == Success(f.priceRange);
    assert OptionalString(q, "rating") == Success(f.rating);
    assert OptionalString(q, "search") == Success(f.search);
    assert OptionalString(q, "sortBy") == Success(f.sortBy);
  }
}
