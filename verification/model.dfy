/**
 * The marketplace backend's data: accounts, products, categories, the
 * identity a bearer token carries, and the HTTP responses the route handlers
 * send. The relational database is replaced by an immutable `Store`.
 */
module Model {

  datatype Option<+T> = None | Some(value: T)

  /**
   * A request field as the handlers see it after destructuring `req.body`:
   * `None` is JavaScript's `undefined`.
   */
  type Field = Option<string>

  /** JavaScript truthiness of a field: `undefined` and `""` are falsy. */
  predicate Truthy(f: Field)
  {
    f.Some? && f.value != ""
  }

  /** A row of `usuarios`; `passwordHash` is the stored `senha` column. */
  datatype User = User(id: nat, name: string, email: string, passwordHash: string, phone: Field)

  /** The payload of a session token: `{userId, name}`. */
  datatype Identity = Identity(userId: nat, name: string)

  /** A row of `produtos`; nullable columns are `Field`s, `None` being SQL `NULL`. */
  datatype Product = Product(
    id: nat,
    name: Field,
    description: Field,
    price: Field,
    status: Field,
    imageUrl: Field,
    ownerId: nat,
    categoryId: Field)

  /** A row of `categorias`. */
  datatype Category = Category(id: string, name: string)

  /**
   * The database. Users are keyed by their unique e-mail; products by id.
   * The two counters play the part of the tables' serial id sequences.
   */
  datatype Store = Store(
    users: map<string, User>,
    nextUserId: nat,
    products: map<nat, Product>,
    nextProductId: nat,
    categories: seq<Category>)

  /** The public view of an account: `{id, nome, email}`, with no hash. */
  datatype UserView = UserView(id: nat, name: string, email: string)

  function View(u: User): (v: UserView)
  {
    UserView(u.id, u.name, u.email)
  }

  /** A listing row: the product and its joined `categoria_nome`. */
  datatype Row = Row(product: Product, categoryName: string)

  datatype Body =
    | NoBody
    | Plain(text: string)               // `res.sendStatus(n)`: the status text
    | Message(error: string)            // `{ error: ... }`
    | Account(user: UserView)           // the registered account
    | Session(token: string, user: UserView)
    | Item(product: Product)
    | Rows(rows: seq<Row>)
    | Categories(categories: seq<Category>)

  datatype Response = Response(status: nat, body: Body)

  /** What one request produces: the response and the store after it. */
  datatype Step = Step(response: Response, store: Store)

  const MissingAccountFields := "Nome, email e senha são obrigatórios."
  const EmailInUse := "Este e-mail já está em uso."
  const RegisterFailed := "Erro ao registrar usuário."
  const MissingLoginFields := "Email e senha são obrigatórios."
  const InvalidCredentials := "Credenciais inválidas."
  const ServerError := "Erro no servidor."
  const MissingProductFields := "Nome, preço e categoria são obrigatórios."
  const CreateFailed := "Erro interno ao cadastrar o produto."
  const ListFailed := "Erro interno ao listar os produtos."
  const ProductNotFound := "Produto não encontrado ou não pertence a este usuário."
  const GetFailed := "Erro interno ao buscar o produto."
  const UpdateFailed := "Erro interno ao atualizar o produto."
  const DeleteFailed := "Erro interno ao excluir o produto."
  const CategoriesFailed := "Erro ao buscar categorias."

  /**
   * What the database guarantees of its tables: keys agree with the rows'
   * ids and lie below the id sequences, e-mails and user ids are unique, and
   * category ids are unique.
   */
  predicate Valid(s: Store)
  {
    && (forall id :: id in s.products ==> s.products[id].id == id && id < s.nextProductId)
    && (forall e :: e in s.users ==> s.users[e].email == e && s.users[e].id < s.nextUserId)
    && (forall e, f :: e in s.users && f in s.users && e != f ==> s.users[e].id != s.users[f].id)
    && (forall i, j :: 0 <= i < j < |s.categories| ==> s.categories[i].id != s.categories[j].id)
  }

  /** The products of one owner: everything an owner-scoped statement can see. */
  function OwnedBy(products: map<nat, Product>, owner: nat): (m: map<nat, Product>)
    ensures forall id :: id in m <==> id in products && products[id].ownerId == owner
    ensures forall id :: id in m ==> m[id] == products[id]
  {
    map id | id in products && products[id].ownerId == owner :: products[id]
  }

  /** A fresh database holding only the category reference data. */
  function Fresh(categories: seq<Category>): (s: Store)
    requires forall i, j :: 0 <= i < j < |categories| ==> categories[i].id != categories[j].id
    ensures Valid(s) && s.products == map[] && s.users == map[]
  {
    Store(map[], 1, map[], 1, categories)
  }
}
