/**
 * The `/register` and `/login` handlers over the `users` table.
 */
module Accounts {
  import opened Model
  import opened Auth

  /**
   * The password-hashing library: `hash(password, salt)` and
   * `compare(password, storedHash)`. The salt is drawn per registration.
   */
  datatype PasswordHasher = PasswordHasher(hash: (string, string) -> string, compare: (string, string) -> bool)

  /** All of name, e-mail and password are present and non-empty. */
  predicate AccountFieldsGiven(name: Field, email: Field, password: Field)
  {
    Truthy(name) && Truthy(email) && Truthy(password)
  }

  /**
   * `POST /register`. Missing fields are rejected before the database is
   * touched; the unique index on `email` rejects a second account with the
   * same address (error code 23505); any other failure (`fault`) is 500.
   */
  function Register(
    s: Store, hasher: PasswordHasher, salt: string,
    name: Field, email: Field, password: Field, phone: Field, fault: bool): (r: Step)
    ensures r.response.status == 201 <==> AccountFieldsGiven(name, email, password) && !fault && email.value !in s.users
    ensures r.response.status != 201 ==> r.store == s
    ensures !AccountFieldsGiven(name, email, password) ==> r.response == Response(400, Message(MissingAccountFields))
    ensures AccountFieldsGiven(name, email, password) && fault ==> r.response == Response(500, Message(RegisterFailed))
    ensures AccountFieldsGiven(name, email, password) && !fault && email.value in s.users ==>
              r.response == Response(400, Message(EmailInUse))
    ensures r.response.status == 201 ==>
              && r.store.users.Keys == s.users.Keys + {email.value}
              && (forall e :: e in s.users ==> r.store.users[e] == s.users[e])
              && var u := r.store.users[email.value];
              && u.id == s.nextUserId && u.name == name.value && u.email == email.value
              && u.passwordHash == hasher.hash(password.value, salt) && u.phone == phone
              && r.response.body == Account(View(u))
              && r.store.products == s.products && r.store.categories == s.categories
              && r.store.nextUserId == s.nextUserId + 1 && r.store.nextProductId == s.nextProductId
  {
    if !AccountFieldsGiven(name, email, password) then
      Step(Response(400, Message(MissingAccountFields)), s)
    else if fault then
      Step(Response(500, Message(RegisterFailed)), s)
    else if email.value in s.users then
      Step(Response(400, Message(EmailInUse)), s)
    else
      var u := User(s.nextUserId, name.value, email.value, hasher.hash(password.value, salt), phone);
      Step(Response(201, Account(View(u))),
           s.(users := s.users[email.value := u], nextUserId := s.nextUserId + 1))
  }

  /**
   * `POST /login`. An unknown e-mail and a wrong password get the same 401;
   * success signs `{userId, name}` and returns the public account view.
   */
  function Login(
    s: Store, hasher: PasswordHasher, tokens: TokenService,
    email: Field, password: Field, fault: bool): (r: Response)
    ensures r.status == 200 <==>
              && Truthy(email) && Truthy(password) && !fault && email.value in s.users
              && hasher.compare(password.value, s.users[email.value].passwordHash)
    ensures r.status == 200 ==>
              var u := s.users[email.value];
              r.body == Session(tokens.sign(Identity(u.id, u.name)), UserView(u.id, u.name, u.email))
    ensures !(Truthy(email) && Truthy(password)) ==> r == Response(400, Message(MissingLoginFields))
    ensures Truthy(email) && Truthy(password) && fault ==> r == Response(500, Message(ServerError))
    ensures Truthy(email) && Truthy(password) && !fault
            && (email.value !in s.users || !hasher.compare(password.value, s.users[email.value].passwordHash)) ==>
              r == Response(401, Message(InvalidCredentials))
    ensures r.status == 401 ==> r.body == Message(InvalidCredentials)
  {
    if !Truthy(email) || !Truthy(password) then
      Response(400, Message(MissingLoginFields))
    else if fault then
      Response(500, Message(ServerError))
    else if email.value !in s.users then
      Response(401, Message(InvalidCredentials))
    else
      var u := s.users[email.value];
      if !hasher.compare(password.value, u.passwordHash) then
        Response(401, Message(InvalidCredentials))
      else
        Response(200, Session(tokens.sign(Identity(u.id, u.name)), View(u)))
  }

  /**
   * An unknown e-mail and a known e-mail with a wrong password are
   * indistinguishable to the caller.
   */
  lemma LoginFailuresIndistinguishable(
    s: Store, hasher: PasswordHasher, tokens: TokenService,
    unknown: string, known: string, password: string)
    requires unknown != "" && password != "" && known != ""
    requires unknown !in s.users && known in s.users
    requires !hasher.compare(password, s.users[known].passwordHash)
    ensures Login(s, hasher, tokens, Some(unknown), Some(password), false)
         == Login(s, hasher, tokens, Some(known), Some(password), false)
    ensures Login(s, hasher, tokens, Some(unknown), Some(password), false).status == 401
  {
  }

  /**
   * The registration response does not depend on the password: the hash
   * never reaches the caller.
   */
  lemma RegisterResponseIgnoresPassword(
    s: Store, hasher: PasswordHasher, salt: string,
    name: Field, email: Field, p1: string, p2: string, phone: Field, fault: bool)
    requires p1 != "" && p2 != ""
    ensures Register(s, hasher, salt, name, email, Some(p1), phone, fault).response
         == Register(s, hasher, salt, name, email, Some(p2), phone, fault).response
  {
  }

  /** Registration keeps the database's guarantees. */
  lemma RegisterPreservesValid(
    s: Store, hasher: PasswordHasher, salt: string,
    name: Field, email: Field, password: Field, phone: Field, fault: bool)
    requires Valid(s)
    ensures Valid(Register(s, hasher, salt, name, email, password, phone, fault).store)
  {
  }

  /**
   * Registering and then logging in with the same password yields a token
   * signed for the new account and the account's public view, provided the
   * hashing library recognises its own hashes.
   */
  lemma RegisterThenLogin(
    s: Store, hasher: PasswordHasher, tokens: TokenService, salt: string,
    name: string, email: string, password: string, phone: Field)
    requires name != "" && email != "" && password != "" && email !in s.users
    requires hasher.compare(password, hasher.hash(password, salt))
    ensures var r := Register(s, hasher, salt, Some(name), Some(email), Some(password), phone, false);
            && r.response.status == 201
            && Login(r.store, hasher, tokens, Some(email), Some(password), false)
               == Response(200, Session(tokens.sign(Identity(s.nextUserId, name)), UserView(s.nextUserId, name, email)))
  {
  }
}
