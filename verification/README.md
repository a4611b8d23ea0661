# Marketplace backend core in Dafny

A model of the REST backend of a small marketplace: account registration and
login, the bearer-token middleware that guards every product route, the
owner-scoped product handlers (create, fetch, update, delete, filtered
listing), the category listing, and the status badge the product card shows.
The relational database becomes an immutable `Store` (users keyed by e-mail,
products keyed by id, the categories table, and the two id sequences); each
handler is a pure function from the store, the caller's identity and the
request fields to a `Response` and the next store.

Modules, one per part of the program:

- `Strings` — JavaScript `split(' ')` and its inverse, ASCII case folding,
  SQL `LIKE`/`ILIKE`, and the theorem that the search pattern `%s%` is a
  case-insensitive substring test when `s` holds no wildcard.
- `Model` — users, products, categories, identities, responses, the store
  and its invariant `Valid`, the messages the handlers send.
- `Auth` — bearer-token extraction and the `authenticateToken` gate
  (401 / 403 / identity); the token library is a `TokenService` parameter.
- `Accounts` — `/register` and `/login`; the password library is a
  `PasswordHasher` parameter.
- `Products` — `POST`, `GET /:id`, `PUT /:id`, `DELETE /:id` on `/produtos`.
- `Listing` — the `GET /produtos` query builder (conditions plus numbered
  parameters), its evaluation, the ordered and joined result, and
  `GET /categorias` with a proved sort.
- `Server` — request dispatch through the gate, and the properties that
  span several handlers (tenant isolation, login token accepted by the gate).
- `ProductCard` — `getStatusStyles`.

Request fields are `Option<string>`, `None` standing for JavaScript's
`undefined`; `Truthy` is JavaScript truthiness (absent or empty is falsy),
which is what the handlers' `!field` checks test. A database failure of any
kind is the per-request input `fault`: each handler's `catch` answers 500 and
the store is left as it was.

Points where the code behaves differently from what one might expect, all
modelled as the code has them:

- Routes and fields are the Portuguese ones (`/produtos`, `/categorias`,
  `nome`, `preco`, `categoria_id`, `senha`).
- Required fields are rejected when falsy, so an empty string counts as
  missing, not only an absent field.
- An empty `Authorization` header is not "no token": `authHeader && ...`
  yields the empty string itself, which is not `null`, so it is handed to
  the token verifier (a 403 with the usual library) instead of answered 401.
- The scheme word is never checked: the token is the second space-separated
  piece of the header, whatever the first one says.

## Model

| member | source | states |
|---|---|---|
| Strings.Split | backend/index.js:41 | `split(' ')` gives one more piece than the text has spaces |
| Strings.SplitPieces | backend/index.js:41 | no piece of `split(' ')` contains a space, and there is a single piece exactly when the text has no space |
| Strings.JoinSplit | backend/index.js:41 | joining the pieces of a split with single spaces gives back the header text |
| Strings.SplitJoin | backend/index.js:41 | splitting space-free pieces joined by single spaces recovers exactly those pieces |
| Strings.LikeContains | backend/index.js:166-167 | the `LIKE` pattern `%s%` matches exactly the texts containing `s`, when `s` has no `%` or `_` |
| Strings.ILikeContains | backend/index.js:166-167 | `name ILIKE '%s%'` holds exactly when the case-folded `s` is a substring of the case-folded name, for wildcard-free `s` |
| Strings.WildcardSearchIsNotLiteral | backend/index.js:166-167 | the unescaped search text `_` matches the name "a", which does not contain `_` |
| Auth.BearerToken | backend/index.js:40-41 | no token exactly when the header is absent or is non-empty without a space; an empty header yields the empty token |
| Auth.Authenticate | backend/index.js:39-55 | 401 exactly when the header is absent or non-empty without a space; 403 exactly when a token is present and the verifier rejects it; otherwise the identity is the one the verifier decoded from the token |
| Auth.Rejection | backend/index.js:43-51 | a missing token is answered 401 and a rejected token 403 |
| Auth.BearerTokenIsSecondPiece | backend/index.js:41 | for any header made of space-free pieces, the token is the second piece, regardless of the scheme and of later pieces |
| Auth.BearerHeaderCarriesToken | backend/index.js:41 | the header `Bearer <t>` carries exactly the token `t` |
| Auth.SchemeAloneIsUnauthenticated | backend/index.js:41-45 | a header `Bearer` with no token is answered 401 |
| Auth.EmptyHeaderReachesVerifier | backend/index.js:41-51 | an empty header is never 401; it is 403 whenever the verifier rejects the empty token |
| Accounts.Register | backend/index.js:62-85 | 201 exactly when name, e-mail and password are all given, the database works and the e-mail is unused; missing fields give 400 with the fields message, a database failure 500 with the registration-error message, and a taken e-mail 400 "e-mail em uso"; any failure leaves the store unchanged; success adds exactly one user under that e-mail with the next id and the hash of the password, and answers only `{id, nome, email}`; on success the user id sequence advances by one and the product id sequence stays |
| Accounts.Login | backend/index.js:88-115 | 200 exactly when both fields are given, the database works, the e-mail is registered and the password matches its hash; an unknown e-mail and a password the hash rejects are both answered 401 with the one "invalid credentials" message, a database failure 500 with the server-error message; success answers a token signed for exactly `{userId, name}` of that user plus `{id, nome, email}` |
| Accounts.LoginFailuresIndistinguishable | backend/index.js:96-105 | an unknown e-mail and a wrong password for a known e-mail get the identical 401 response |
| Accounts.RegisterResponseIgnoresPassword | backend/index.js:72-77 | the registration response is the same whatever the password, so the hash never reaches the caller |
| Accounts.RegisterPreservesValid | backend/index.js:72-83 | registration keeps e-mails and user ids unique and below the id sequence |
| Accounts.RegisterThenLogin | backend/index.js:62-110 | after a successful registration, logging in with the same password returns the token for the new id and name and the new account's public view |
| Products.ImageUrl | backend/index.js:127 | the image path is `/uploads/<filename>` when a file came and `null` otherwise |
| Products.StatusOrDefault | backend/index.js:140 | the stored status is the given one when non-empty and `ativo` otherwise |
| Products.Create | backend/index.js:122-149 | 201 exactly when name, price and category are given and the database works; otherwise 400 with the fields message when a required field is missing, or 500 with the create-error message on a database failure, the store unchanged; the new product gets the next id, the token's user as owner, the form's fields, the default status and the upload path, and nothing else in the store changes; on success the product id sequence advances by one and the user id sequence stays |
| Products.Get | backend/index.js:187-206 | 200 exactly when the database works and the requester owns the id, answering that stored product; a missing id and another owner's id both get the same 404; a database failure gets 500 with the fetch-error message |
| Products.Update | backend/index.js:210-239 | 200 exactly when the requester owns the id; then name, description, price, status and category are replaced by the form's values as given, the image is kept when no file came, the owner and id stay, and every other product is untouched; otherwise 404 when not owned, or 500 with the update-error message on a database failure, the store unchanged; neither id sequence moves |
| Products.Delete | backend/index.js:243-262 | 204 with no body exactly when the requester owns the id, removing that one product and nothing else; otherwise 404 when not owned, or 500 with the delete-error message on a database failure, the store unchanged; neither id sequence moves |
| Products.CreateThenGet | backend/index.js:122-206 | a product created with the required fields is then fetched by its id with every stored field, including the upload path or `null` |
| Products.DeleteTwice | backend/index.js:249-257 | deleting the same id a second time gets 404 and changes nothing |
| Products.GetScopedToOwner | backend/index.js:187-206 | fetching answers the same on any two stores that agree on the requester's own products |
| Products.UpdateScopedToOwner | backend/index.js:210-239 | updating answers the same on any two stores that agree on the requester's own products, and leaves them in agreement |
| Products.DeleteScopedToOwner | backend/index.js:243-262 | deleting answers the same on any two stores that agree on the requester's own products, and leaves them in agreement |
| Products.ForeignLooksMissing | backend/index.js:187-262 | another owner's product gets the same get, update and delete responses as if it were absent |
| Products.CreateLeavesOthers | backend/index.js:122-149 | under the store invariant, creating never changes the products of any user other than the requester |
| Products.UpdateLeavesOthers | backend/index.js:210-239 | updating never changes the products of any user other than the requester |
| Products.DeleteLeavesOthers | backend/index.js:243-262 | deleting never changes the products of any user other than the requester |
| Products.CreatePreservesValid | backend/index.js:122-149 | creating keeps product keys equal to their ids and below the id sequence |
| Products.UpdatePreservesValid | backend/index.js:210-239 | updating keeps product keys equal to their ids and below the id sequence |
| Products.DeletePreservesValid | backend/index.js:243-262 | deleting keeps product keys equal to their ids and below the id sequence |
| Listing.BuildListQuery | backend/index.js:157-175 | the first condition is the owner test on `$1` with parameter the owner id; a non-empty search adds the `ILIKE` test on `$2` with parameter `%search%`; a non-empty status adds the equality test as the last placeholder with the status as its parameter; empty filters add nothing; every placeholder `$k` at position `i` has `k = i + 1`, so it names `values[k-1]` |
| Listing.PushKeepsNumbering | backend/index.js:165-173 | appending a parameter and naming it by the list's new length keeps every placeholder pointing at its own parameter, leaves the earlier conditions and parameters as they were, and numbers the new one `$n` for the new length `n` |
| Listing.QueryMeansFilter | backend/index.js:157-175 | the built clause selects a product exactly when it is the requester's, its name contains the search ignoring case (if given) and its status equals the filter (if given), for wildcard-free search text |
| Listing.JoinCategory | backend/index.js:158-160 | every joined row is of the product itself, which has a category, and there are no more rows than categories |
| Listing.JoinCategoryMembers | backend/index.js:158-160 | the inner join gives a row for each category whose id is the product's category, carrying that category's name, and only such rows |
| Listing.ScanSelects | backend/index.js:157-178 | every listed row is a stored product the clause selects |
| Listing.JoinAtMostOne | backend/index.js:158-160 | with unique category ids the inner join gives a product at most one row, so no product is listed twice |
| Listing.ListProducts | backend/index.js:153-184 | 200 exactly when the database works, and every row belongs to the requester; otherwise 500 |
| Listing.ScanDescending | backend/index.js:175 | the rows come strictly by descending product id |
| Listing.ScanBelow | backend/index.js:157-175 | under the store invariant every listed product has an id below the scanned bound |
| Listing.ScanHeadMembers | backend/index.js:157-160 | product `id` contributes a row exactly when it is stored under `id`, the clause selects it and a category of its id carries the row's name |
| Listing.ScanMembersSound | backend/index.js:157-178 | every listed row is a stored product below the bound, selected by the clause and joined to a category carrying that name |
| Listing.ScanMembersComplete | backend/index.js:157-178 | every stored product below the bound that the clause selects is listed with each category name of its id |
| Listing.ScanMembers | backend/index.js:157-178 | a row is listed exactly when its product is stored, selected by the clause, and joined to a category carrying that name |
| Listing.ListingContents | backend/index.js:153-184 | the listing holds exactly the requester's products that pass both filters, each with its category name, strictly highest id first |
| Listing.EmptyFiltersAddNothing | frontend/src/pages/Produtos.jsx:14-16 | the empty strings the listing page sends, like absent filters, leave only the owner condition |
| Listing.BothFiltersNumbering | backend/index.js:163-173 | with both filters the clause is owner `$1`, name `$2`, status `$3` with the matching parameters |
| Listing.StatusAloneNumbering | backend/index.js:163-173 | a status filter without a search takes `$2` |
| Listing.Insert | backend/index.js:267 | inserting into a name-ordered list keeps it ordered and adds exactly that category |
| Listing.SortByName | backend/index.js:267 | the result is ordered by name and is a permutation of the input |
| Listing.ListCategories | backend/index.js:265-272 | 200 with every category, each exactly as often as stored, in ascending name order; 500 on a database failure |
| Listing.UnescapedSearchWidensListing | backend/index.js:165-167 | the search `_` selects a product named "a" that the substring reading would not list |
| Server.Serve | backend/index.js:39-272 | a protected route without a valid token gets the gate's 401 or 403 and the store is unchanged; with a valid token it is answered by its route's handler run as the identity the token decoded; `/register` and `/login` run their handlers without the gate; protected routes never change users or categories, public ones never change products |
| Server.Route | backend/index.js:122-272 | no product or category route changes users, categories or the user id sequence; the three `GET` routes change nothing; a database failure leaves the store unchanged and is answered 500 by every route but create, which checks its fields first |
| Server.ServePreservesValid | backend/index.js:62-272 | every route keeps the store's invariant |
| Server.RunPreservesValid | backend/index.js:62-272 | any sequence of requests, served one after another, keeps the store's invariant |
| Server.RunFromFreshValid | backend/index.js:62-272 | from a database holding only the category reference data, any sequence of requests leaves a database meeting the invariant |
| Server.ServeIsolatesOwners | backend/index.js:122-262 | no request changes the products of a user other than the one its token names |
| Server.LoginTokenAuthenticates | backend/index.js:39-110 | the token from a successful login, sent as `Bearer <token>`, passes the gate as the account that logged in |
| Server.ForeignProductNotFound | backend/index.js:187-262 | through the gate, fetching or deleting another user's product gets the not-found 404, and the delete changes nothing |
| ProductCard.StatusStyle | frontend/src/components/ProductCard.jsx:10-20 | the style is one of three; green exactly for `vendido`, gray exactly for `desativado`, blue for `ativo` and every other string |
| ProductCard.InactiveShownAsActive | frontend/src/pages/EditProduct.jsx:151-153 | `inativo`, the inactive value the forms store, gets the same blue style as `ativo`, and no form value gets the gray style |
| ProductCard.IntendedStatusStyle | frontend/src/components/ProductCard.jsx:10-20 | gray exactly for `desativado` and `inativo`, green exactly for `vendido`, and otherwise as written |
| ProductCard.IntendedStyleSeparatesFormStatuses | frontend/src/pages/EditProduct.jsx:151-153 | under the corrected mapping the three statuses the forms offer get three different styles |

## Left out

- Express routing, CORS, JSON body parsing, static serving of `/uploads` and multer's disk storage are I/O; the stored file name (`Date.now()` plus extension) is an input of the create and update requests.
- bcrypt salting, hashing and comparison are the `PasswordHasher` parameter and the salt an input; JWT signing, verification and the one-hour expiry are the `TokenService` parameter, the clock being folded into which verifier is passed. The hard-coded signing key is part of that parameter.
- SQL execution is replaced by the map store. There is no schema file, so column types, `NOT NULL` and foreign-key checks, numeric casts of `preco`, `categoria_id` and the route's `:id` are not modelled; any error they raise is the `fault` input (500, no change). Route ids are naturals.
- The id sequences advance only on successful inserts here; PostgreSQL also consumes a value on a failed insert. Ids stay unique either way.
- Register checks `fault` before the duplicate e-mail: when the database fails for another reason the answer is 500 even if the e-mail is taken.
- The gap between the update handler's ownership check and its `UPDATE`, and concurrent requests in general: requests are served one at a time.
- `ILIKE` is modelled with ASCII case folding only and without the `\` escape character; ordering by `nome` uses code-point order, not the database collation.
- Request values are modelled as strings only. `express.json()` (backend/index.js:17) can deliver a JSON number, boolean or array instead, and a repeated query key arrives as an array; `!preco` then rejects `0` and `false` with 400, while the nearest modelled value, the string `"0"`, is truthy and accepted.
- The `iat`/`exp` claims of the token payload; the identity is `{userId, name}` only.
- Logging (`console.error`), `formatPrice` (floating point and locale formatting), every React page and component, `AuthContext`'s local storage, the Layout tooltip timer and App routing.
- Listing.QueryMeansFilter: holds only for search text without `%` or `_`, because the handler inserts the text into the pattern unescaped; PostgreSQL also treats `\` as the pattern's escape character, which the `LIKE` model leaves out, so search text holding `\` is not covered by the database's behaviour either; Listing.UnescapedSearchWidensListing exhibits the other case.
- Listing.ListingContents: same wildcard-free assumption, and requires the store invariant `Valid` (unique ids below the sequence, unique category ids).

## Findings

| source | as written | input that shows it | evidently intended | confidence | as-written member | corrected member |
|---|---|---|---|---|---|---|
| frontend/src/components/ProductCard.jsx:14-18 | only `desativado` gets the gray badge; everything else but `vendido` is blue | status `inativo`, the inactive value the edit form stores (frontend/src/pages/EditProduct.jsx:152), is shown blue like `ativo` | `inativo` shown with the gray inactive style | medium, not executed | ProductCard.InactiveShownAsActive | ProductCard.IntendedStyleSeparatesFormStatuses |
