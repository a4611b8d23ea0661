/**
 * The owner-scoped `/produtos` handlers: create, fetch one, update, delete.
 * Every statement after creation is filtered by `id = $1 AND usuario_id = $2`,
 * so a product of another owner is indistinguishable from a missing one.
 */
module Products {
  import opened Model

  /** The multipart form fields the create and update handlers read. */
  datatype ProductForm = ProductForm(name: Field, description: Field, price: Field, status: Field, categoryId: Field)

  /** `id = $1 AND usuario_id = $2` finds a row. */
  predicate Owns(s: Store, who: Identity, id: nat)
  {
    id in s.products && s.products[id].ownerId == who.userId
  }

  /** The public path of an uploaded file, `null` when there is none. */
  function ImageUrl(upload: Option<string>): (url: Field)
    ensures upload.None? <==> url.None?
    ensures upload.Some? ==> url.value == "/uploads/" + upload.value
  {
    match upload
    case None => None
    case Some(filename) => Some("/uploads/" + filename)
  }

  /** The fields without which creation is refused. */
  predicate RequiredGiven(form: ProductForm)
  {
    Truthy(form.name) && Truthy(form.price) && Truthy(form.categoryId)
  }

  /** `status || 'ativo'`. */
  function StatusOrDefault(status: Field): (r: string)
    ensures Truthy(status) ==> Some(r) == status
    ensures !Truthy(status) ==> r == "ativo"
  {
    if Truthy(status) then status.value else "ativo"
  }

  /**
   * `POST /produtos`. The owner is the token's user; the form has no say in
   * it. The new row takes the next id of the sequence.
   */
  function Create(s: Store, who: Identity, form: ProductForm, upload: Option<string>, fault: bool): (r: Step)
    ensures r.response.status == 201 <==> RequiredGiven(form) && !fault
    ensures r.response.status != 201 ==> r.store == s
    ensures !RequiredGiven(form) ==> r.response == Response(400, Message(MissingProductFields))
    ensures RequiredGiven(form) && fault ==> r.response == Response(500, Message(CreateFailed))
    ensures r.response.status == 201 ==>
              && r.response.body.Item?
              && var p := r.response.body.product;
              && p.id == s.nextProductId && p.ownerId == who.userId
              && p.name == form.name && p.description == form.description && p.price == form.price
              && p.categoryId == form.categoryId && p.status == Some(StatusOrDefault(form.status))
              && p.imageUrl == ImageUrl(upload)
              && r.store.products == s.products[p.id := p]
              && r.store.nextProductId == s.nextProductId + 1
              && r.store.users == s.users && r.store.categories == s.categories
              && r.store.nextUserId == s.nextUserId
  {
    var image := ImageUrl(upload);
    if !RequiredGiven(form) then
      Step(Response(400, Message(MissingProductFields)), s)
    else if fault then
      Step(Response(500, Message(CreateFailed)), s)
    else
      var p := Product(s.nextProductId, form.name, form.description, form.price,
                       Some(StatusOrDefault(form.status)), image, who.userId, form.categoryId);
      Step(Response(201, Item(p)),
           s.(products := s.products[p.id := p], nextProductId := s.nextProductId + 1))
  }

  /** `GET /produtos/:id`. */
  function Get(s: Store, who: Identity, id: nat, fault: bool): (r: Response)
    ensures r.status == 200 <==> !fault && Owns(s, who, id)
    ensures r.status == 200 ==> r.body.Item? && r.body.product == s.products[id] && r.body.product.ownerId == who.userId
    ensures fault ==> r == Response(500, Message(GetFailed))
    ensures !fault && !Owns(s, who, id) ==> r == Response(404, Message(ProductNotFound))
  {
    if fault then Response(500, Message(GetFailed))
    else if !Owns(s, who, id) then Response(404, Message(ProductNotFound))
    else Response(200, Item(s.products[id]))
  }

  /**
   * `PUT /produtos/:id`. Name, description, price, status and category are
   * overwritten by whatever the form holds, absent fields included; the image
   * is replaced only when a new file came with the request.
   */
  function Update(s: Store, who: Identity, id: nat, form: ProductForm, upload: Option<string>, fault: bool): (r: Step)
    ensures r.response.status == 200 <==> !fault && Owns(s, who, id)
    ensures r.response.status != 200 ==> r.store == s
    ensures fault ==> r.response == Response(500, Message(UpdateFailed))
    ensures !fault && !Owns(s, who, id) ==> r.response == Response(404, Message(ProductNotFound))
    ensures r.response.status == 200 ==>
              && r.response.body.Item?
              && var p := r.response.body.product;
              && p.id == id && p.ownerId == who.userId
              && p.name == form.name && p.description == form.description && p.price == form.price
              && p.status == form.status && p.categoryId == form.categoryId
              && (upload.None? ==> p.imageUrl == s.products[id].imageUrl)
              && (upload.Some? ==> p.imageUrl == ImageUrl(upload))
              && r.store.products.Keys == s.products.Keys
              && r.store.products[id] == p
              && (forall k :: k in s.products && k != id ==> r.store.products[k] == s.products[k])
              && r.store.nextProductId == s.nextProductId
              && r.store.users == s.users && r.store.categories == s.categories
              && r.store.nextUserId == s.nextUserId
  {
    if fault then
      Step(Response(500, Message(UpdateFailed)), s)
    else if !Owns(s, who, id) then
      Step(Response(404, Message(ProductNotFound)), s)
    else
      var image := if upload.Some? then ImageUrl(upload) else s.products[id].imageUrl;
      var p := Product(id, form.name, form.description, form.price, form.status, image, who.userId, form.categoryId);
      Step(Response(200, Item(p)), s.(products := s.products[id := p]))
  }

  /** `DELETE /produtos/:id`: 204 when one row went, 404 when none did. */
  function Delete(s: Store, who: Identity, id: nat, fault: bool): (r: Step)
    ensures r.response.status == 204 <==> !fault && Owns(s, who, id)
    ensures r.response.status != 204 ==> r.store == s
    ensures fault ==> r.response == Response(500, Message(DeleteFailed))
    ensures !fault && !Owns(s, who, id) ==> r.response == Response(404, Message(ProductNotFound))
    ensures r.response.status == 204 ==>
              && r.response.body == NoBody
              && r.store.products.Keys == s.products.Keys - {id}
              && (forall k :: k in r.store.products ==> r.store.products[k] == s.products[k])
              && r.store.nextProductId == s.nextProductId
              && r.store.users == s.users && r.store.categories == s.categories
              && r.store.nextUserId == s.nextUserId
  {
    if fault then
      Step(Response(500, Message(DeleteFailed)), s)
    else if !Owns(s, who, id) then
      Step(Response(404, Message(ProductNotFound)), s)
    else
      Step(Response(204, NoBody), s.(products := s.products - {id}))
  }

  /**
   * Creating a product and then fetching it by the returned id gives back
   * the stored record: every form field, the default status, the image path.
   */
  lemma CreateThenGet(s: Store, who: Identity, form: ProductForm, upload: Option<string>)
    requires RequiredGiven(form)
    ensures var c := Create(s, who, form, upload, false);
            && c.response.status == 201
            && Get(c.store, who, s.nextProductId, false) == Response(200, c.response.body)
            && c.response.body.product.imageUrl == ImageUrl(upload)
  {
  }

  /** Deleting twice: the second attempt finds no row and changes nothing. */
  lemma DeleteTwice(s: Store, who: Identity, id: nat)
    ensures var first := Delete(s, who, id, false);
            var second := Delete(first.store, who, id, false);
            && second.response == Response(404, Message(ProductNotFound))
            && second.store == first.store
  {
  }

  /** Writing a row owned by someone else into a slot the owner does not hold leaves the owner's view alone. */
  lemma OwnedByWriteElsewhere(m: map<nat, Product>, k: nat, p: Product, owner: nat)
    requires p.ownerId != owner && (k !in m || m[k].ownerId != owner)
    ensures OwnedBy(m[k := p], owner) == OwnedBy(m, owner)
  {
  }

  /** Removing a slot the owner does not hold leaves the owner's view alone. */
  lemma OwnedByRemoveElsewhere(m: map<nat, Product>, k: nat, owner: nat)
    requires k !in m || m[k].ownerId != owner
    ensures OwnedBy(m - {k}, owner) == OwnedBy(m, owner)
  {
  }

  /** Two maps with the same view for `owner` keep it under the same write. */
  lemma OwnedByWriteAgrees(m1: map<nat, Product>, m2: map<nat, Product>, k: nat, p: Product, owner: nat)
    requires OwnedBy(m1, owner) == OwnedBy(m2, owner)
    ensures OwnedBy(m1[k := p], owner) == OwnedBy(m2[k := p], owner)
  {
    var v1 := OwnedBy(m1[k := p], owner);
    var v2 := OwnedBy(m2[k := p], owner);
    forall j | j in v1 ensures j in v2 && v2[j] == v1[j] {
      if j != k {
        assert j in OwnedBy(m1, owner);
      }
    }
    forall j | j in v2 ensures j in v1 {
      if j != k {
        assert j in OwnedBy(m2, owner);
      }
    }
  }

  /** Two maps with the same view for `owner` keep it under the same removal. */
  lemma OwnedByRemoveAgrees(m1: map<nat, Product>, m2: map<nat, Product>, k: nat, owner: nat)
    requires OwnedBy(m1, owner) == OwnedBy(m2, owner)
    ensures OwnedBy(m1 - {k}, owner) == OwnedBy(m2 - {k}, owner)
  {
    var v1 := OwnedBy(m1 - {k}, owner);
    var v2 := OwnedBy(m2 - {k}, owner);
    forall j | j in v1 ensures j in v2 && v2[j] == v1[j] {
      assert j in OwnedBy(m1, owner);
    }
    forall j | j in v2 ensures j in v1 {
      assert j in OwnedBy(m2, owner);
    }
  }

  /** Whether `who` owns `id` is read off `who`'s own products. */
  lemma OwnsFromView(s1: Store, s2: Store, who: Identity, id: nat)
    requires OwnedBy(s1.products, who.userId) == OwnedBy(s2.products, who.userId)
    ensures Owns(s1, who, id) <==> Owns(s2, who, id)
    ensures Owns(s1, who, id) ==> s1.products[id] == s2.products[id]
  {
    var v := OwnedBy(s1.products, who.userId);
    assert Owns(s1, who, id) <==> id in v;
    assert Owns(s2, who, id) <==> id in OwnedBy(s2.products, who.userId);
    if id in v {
      assert v[id] == s1.products[id];
      assert OwnedBy(s2.products, who.userId)[id] == s2.products[id];
    }
  }

  /** Fetching depends only on the requester's own products. */
  lemma GetScopedToOwner(s1: Store, s2: Store, who: Identity, id: nat, fault: bool)
    requires OwnedBy(s1.products, who.userId) == OwnedBy(s2.products, who.userId)
    ensures Get(s1, who, id, fault) == Get(s2, who, id, fault)
  {
    OwnsFromView(s1, s2, who, id);
  }

  /**
   * Updating depends only on the requester's own products, and leaves the
   * requester's products in agreement.
   */
  lemma UpdateScopedToOwner(s1: Store, s2: Store, who: Identity, id: nat, form: ProductForm, upload: Option<string>, fault: bool)
    requires OwnedBy(s1.products, who.userId) == OwnedBy(s2.products, who.userId)
    ensures Update(s1, who, id, form, upload, fault).response == Update(s2, who, id, form, upload, fault).response
    ensures OwnedBy(Update(s1, who, id, form, upload, fault).store.products, who.userId)
         == OwnedBy(Update(s2, who, id, form, upload, fault).store.products, who.userId)
  {
    OwnsFromView(s1, s2, who, id);
    if !fault && Owns(s1, who, id) {
      var r1 := Update(s1, who, id, form, upload, fault);
      var p := r1.response.body.product;
      assert r1.store.products == s1.products[id := p];
      assert Update(s2, who, id, form, upload, fault).store.products == s2.products[id := p];
      OwnedByWriteAgrees(s1.products, s2.products, id, p, who.userId);
    }
  }

  /**
   * Deleting depends only on the requester's own products, and leaves the
   * requester's products in agreement.
   */
  lemma DeleteScopedToOwner(s1: Store, s2: Store, who: Identity, id: nat, fault: bool)
    requires OwnedBy(s1.products, who.userId) == OwnedBy(s2.products, who.userId)
    ensures Delete(s1, who, id, fault).response == Delete(s2, who, id, fault).response
    ensures OwnedBy(Delete(s1, who, id, fault).store.products, who.userId)
         == OwnedBy(Delete(s2, who, id, fault).store.products, who.userId)
  {
    OwnsFromView(s1, s2, who, id);
    if !fault && Owns(s1, who, id) {
      OwnedByRemoveAgrees(s1.products, s2.products, id, who.userId);
    }
  }

  /**
   * A product owned by someone else is, to get, update and delete, exactly
   * as if it did not exist.
   */
  lemma ForeignLooksMissing(s: Store, who: Identity, id: nat, form: ProductForm, upload: Option<string>, fault: bool)
    requires id in s.products && s.products[id].ownerId != who.userId
    ensures var missing := s.(products := s.products - {id});
            && Get(s, who, id, fault) == Get(missing, who, id, fault)
            && Update(s, who, id, form, upload, fault).response == Update(missing, who, id, form, upload, fault).response
            && Delete(s, who, id, fault).response == Delete(missing, who, id, fault).response
  {
    var missing := s.(products := s.products - {id});
    OwnedByRemoveElsewhere(s.products, id, who.userId);
    GetScopedToOwner(s, missing, who, id, fault);
    UpdateScopedToOwner(s, missing, who, id, form, upload, fault);
    DeleteScopedToOwner(s, missing, who, id, fault);
  }

  /** Creating a product changes no other user's products (the id sequence is ahead of every row). */
  lemma CreateLeavesOthers(s: Store, who: Identity, other: nat, form: ProductForm, upload: Option<string>, fault: bool)
    requires Valid(s) && other != who.userId
    ensures OwnedBy(Create(s, who, form, upload, fault).store.products, other) == OwnedBy(s.products, other)
  {
    var r := Create(s, who, form, upload, fault);
    if r.response.status == 201 {
      var p := r.response.body.product;
      assert s.nextProductId !in s.products;
      OwnedByWriteElsewhere(s.products, s.nextProductId, p, other);
    }
  }

  /** Updating a product changes no other user's products. */
  lemma UpdateLeavesOthers(s: Store, who: Identity, other: nat, id: nat, form: ProductForm, upload: Option<string>, fault: bool)
    requires other != who.userId
    ensures OwnedBy(Update(s, who, id, form, upload, fault).store.products, other) == OwnedBy(s.products, other)
  {
    var r := Update(s, who, id, form, upload, fault);
    if r.response.status == 200 {
      var p := r.response.body.product;
      assert r.store.products == s.products[id := p];
      OwnedByWriteElsewhere(s.products, id, p, other);
    }
  }

  /** Deleting a product changes no other user's products. */
  lemma DeleteLeavesOthers(s: Store, who: Identity, other: nat, id: nat, fault: bool)
    requires other != who.userId
    ensures OwnedBy(Delete(s, who, id, fault).store.products, other) == OwnedBy(s.products, other)
  {
    if !fault && Owns(s, who, id) {
      OwnedByRemoveElsewhere(s.products, id, other);
    }
  }

  /** Creation keeps the database's guarantees. */
  lemma CreatePreservesValid(s: Store, who: Identity, form: ProductForm, upload: Option<string>, fault: bool)
    requires Valid(s)
    ensures Valid(Create(s, who, form, upload, fault).store)
  {
  }

  /** Update keeps the database's guarantees. */
  lemma UpdatePreservesValid(s: Store, who: Identity, id: nat, form: ProductForm, upload: Option<string>, fault: bool)
    requires Valid(s)
    ensures Valid(Update(s, who, id, form, upload, fault).store)
  {
  }

  /** Deletion keeps the database's guarantees. */
  lemma DeletePreservesValid(s: Store, who: Identity, id: nat, fault: bool)
    requires Valid(s)
    ensures Valid(Delete(s, who, id, fault).store)
  {
  }
}
