/**
 * The routes of the backend put together: public account routes, and the
 * product and category routes behind the token middleware.
 */
module Server {
  import opened Model
  import opened Auth
  import opened Accounts
  import opened Products
  import opened Listing

  /** The two foreign libraries: password hashing and token signing. */
  datatype Crypto = Crypto(hasher: PasswordHasher, tokens: TokenService)

  /**
   * One request per route. The salt and the stored upload's file name are
   * drawn by the libraries; here they come with the request.
   */
  datatype Request =
    | PostRegister(name: Field, email: Field, password: Field, phone: Field, salt: string)
    | PostLogin(email: Field, password: Field)
    | PostProduct(form: ProductForm, upload: Option<string>)
    | GetProducts(search: Field, status: Field)
    | GetProduct(id: nat)
    | PutProduct(id: nat, form: ProductForm, upload: Option<string>)
    | DeleteProduct(id: nat)
    | GetCategories

  /** Routes mounted behind `authenticateToken`. */
  predicate Protected(req: Request)
  {
    !(req.PostRegister? || req.PostLogin?)
  }

  /** A protected route's handler, run with the identity the token carried. */
  function Route(s: Store, who: Identity, req: Request, fault: bool): (r: Step)
    requires Protected(req)
    ensures r.store.users == s.users && r.store.nextUserId == s.nextUserId && r.store.categories == s.categories
    ensures req.GetProducts? || req.GetProduct? || req.GetCategories? ==> r.store == s
    ensures fault ==> r.store == s
    ensures fault && !req.PostProduct? ==> r.response.status == 500
  {
    match req
    case PostProduct(form, upload) => Create(s, who, form, upload, fault)
    case GetProducts(search, status) => Step(ListProducts(s, who, search, status, fault), s)
    case GetProduct(id) => Step(Get(s, who, id, fault), s)
    case PutProduct(id, form, upload) => Update(s, who, id, form, upload, fault)
    case DeleteProduct(id) => Delete(s, who, id, fault)
    case GetCategories => Step(ListCategories(s, fault), s)
  }

  /** Serve one request against the database. */
  function Serve(s: Store, crypto: Crypto, authorization: Field, req: Request, fault: bool): (r: Step)
    ensures Protected(req) && !Authenticate(crypto.tokens, authorization).Authenticated? ==>
              r == Step(Rejection(Authenticate(crypto.tokens, authorization)), s)
    ensures Protected(req) ==> r.store.users == s.users && r.store.categories == s.categories
    ensures !Protected(req) ==> r.store.products == s.products && r.store.categories == s.categories
    ensures Protected(req) && Authenticate(crypto.tokens, authorization).Authenticated? ==>
              r == Route(s, Authenticate(crypto.tokens, authorization).identity, req, fault)
    ensures req.PostRegister? ==>
              r == Register(s, crypto.hasher, req.salt, req.name, req.email, req.password, req.phone, fault)
    ensures req.PostLogin? ==> r == Step(Login(s, crypto.hasher, crypto.tokens, req.email, req.password, fault), s)
  {
    match req
    case PostRegister(name, email, password, phone, salt) =>
      Register(s, crypto.hasher, salt, name, email, password, phone, fault)
    case PostLogin(email, password) =>
      Step(Login(s, crypto.hasher, crypto.tokens, email, password, fault), s)
    case _ =>
      var gate := Authenticate(crypto.tokens, authorization);
      if gate.Authenticated? then Route(s, gate.identity, req, fault)
      else Step(Rejection(gate), s)
  }

  /** Every route keeps the database's guarantees. */
  lemma ServePreservesValid(s: Store, crypto: Crypto, authorization: Field, req: Request, fault: bool)
    requires Valid(s)
    ensures Valid(Serve(s, crypto, authorization, req, fault).store)
  {
    match req
    case PostRegister(name, email, password, phone, salt) =>
      RegisterPreservesValid(s, crypto.hasher, salt, name, email, password, phone, fault);
    case PostProduct(form, upload) =>
      var gate := Authenticate(crypto.tokens, authorization);
      if gate.Authenticated? {
        CreatePreservesValid(s, gate.identity, form, upload, fault);
      }
    case PutProduct(id, form, upload) =>
      var gate := Authenticate(crypto.tokens, authorization);
      if gate.Authenticated? {
        UpdatePreservesValid(s, gate.identity, id, form, upload, fault);
      }
    case DeleteProduct(id) =>
      var gate := Authenticate(crypto.tokens, authorization);
      if gate.Authenticated? {
        DeletePreservesValid(s, gate.identity, id, fault);
      }
    case _ =>
  }

  /**
   * Tenant isolation: a request changes no product of any user other than
   * the one its token names, and without a valid token it changes nothing.
   */
  lemma ServeIsolatesOwners(s: Store, crypto: Crypto, authorization: Field, req: Request, fault: bool, other: nat)
    requires Valid(s)
    requires Protected(req) && Authenticate(crypto.tokens, authorization).Authenticated? ==>
               other != Authenticate(crypto.tokens, authorization).identity.userId
    ensures OwnedBy(Serve(s, crypto, authorization, req, fault).store.products, other) == OwnedBy(s.products, other)
  {
    var gate := Authenticate(crypto.tokens, authorization);
    if Protected(req) && gate.Authenticated? {
      match req
      case PostProduct(form, upload) =>
        CreateLeavesOthers(s, gate.identity, other, form, upload, fault);
      case PutProduct(id, form, upload) =>
        UpdateLeavesOthers(s, gate.identity, other, id, form, upload, fault);
      case DeleteProduct(id) =>
        DeleteLeavesOthers(s, gate.identity, other, id, fault);
      case _ =>
    }
  }

  /**
   * A token handed out by a successful login, sent back as `Bearer <token>`,
   * passes the middleware as the account that logged in.
   */
  lemma LoginTokenAuthenticates(
    s: Store, crypto: Crypto, email: string, password: string)
    requires email in s.users
    requires Issues(crypto.tokens, Identity(s.users[email].id, s.users[email].name))
    ensures var r := Login(s, crypto.hasher, crypto.tokens, Some(email), Some(password), false);
            r.status == 200 ==>
              && r.body.Session?
              && Authenticate(crypto.tokens, Some("Bearer " + r.body.token))
                 == Authenticated(Identity(s.users[email].id, s.users[email].name))
  {
    var r := Login(s, crypto.hasher, crypto.tokens, Some(email), Some(password), false);
    if r.status == 200 {
      var who := Identity(s.users[email].id, s.users[email].name);
      BearerHeaderCarriesToken(crypto.tokens.sign(who));
    }
  }

  /**
   * Through the whole server, one user's request for another user's product
   * gets the 404 a missing product gets.
   */
  lemma ForeignProductNotFound(s: Store, crypto: Crypto, authorization: Field, id: nat)
    requires Authenticate(crypto.tokens, authorization).Authenticated?
    requires id in s.products && s.products[id].ownerId != Authenticate(crypto.tokens, authorization).identity.userId
    ensures Serve(s, crypto, authorization, GetProduct(id), false).response == Response(404, Message(ProductNotFound))
    ensures Serve(s, crypto, authorization, DeleteProduct(id), false) == Step(Response(404, Message(ProductNotFound)), s)
  {
  }

  /** One request as it reaches the server: its header, its route and whether the database fails on it. */
  datatype Call = Call(authorization: Field, req: Request, fault: bool)

  /** Serve a sequence of requests one after another, returning the final database. */
  function Run(s: Store, crypto: Crypto, calls: seq<Call>): (final: Store)
    decreases |calls|
  {
    if calls == [] then s
    else
      var c := calls[0];
      Run(Serve(s, crypto, c.authorization, c.req, c.fault).store, crypto, calls[1..])
  }

  /**
   * Starting from a database that holds only the category reference data,
   * any sequence of requests leaves a database meeting its guarantees.
   */
  lemma RunFromFreshValid(categories: seq<Category>, crypto: Crypto, calls: seq<Call>)
    requires forall i, j :: 0 <= i < j < |categories| ==> categories[i].id != categories[j].id
    ensures Valid(Run(Fresh(categories), crypto, calls))
  {
    RunPreservesValid(Fresh(categories), crypto, calls);
  }

  /** Any sequence of requests keeps the database's guarantees. */
  lemma {:induction false} RunPreservesValid(s: Store, crypto: Crypto, calls: seq<Call>)
    requires Valid(s)
    ensures Valid(Run(s, crypto, calls))
    decreases |calls|
  {
    if calls != [] {
      var c := calls[0];
      ServePreservesValid(s, crypto, c.authorization, c.req, c.fault);
      RunPreservesValid(Serve(s, crypto, c.authorization, c.req, c.fault).store, crypto, calls[1..]);
    }
  }
}
