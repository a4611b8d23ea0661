/**
 * `GET /produtos` and `GET /categorias`. The product listing builds its
 * `WHERE` clause piece by piece: the owner condition always, then a name
 * pattern and a status condition only for non-empty filters, each new
 * condition naming its parameter by the parameter list's length after the push.
 */
module Listing {
  import opened Strings
  import opened Model

  datatype SqlValue = Number(n: nat) | Text(s: string)

  /** The three conditions the listing can carry. */
  datatype Column =
    | OwnerColumn   // `p.usuario_id = $k`
    | NameColumn    // `p.nome ILIKE $k`
    | StatusColumn  // `p.status = $k`

  /** One `AND`-ed condition and the number `k` of its placeholder `$k`. */
  datatype Condition = Condition(column: Column, slot: nat)

  /** The conditions in the order they were appended, and the parameter list. */
  datatype Query = Query(conditions: seq<Condition>, values: seq<SqlValue>)

  /** `values.push(v); query += ... $${values.length}`. */
  function Push(q: Query, column: Column, v: SqlValue): (r: Query)
  {
    Query(q.conditions + [Condition(column, |q.values| + 1)], q.values + [v])
  }

  /** Every placeholder `$k` at position `i` names the parameter `values[k-1]`, and `k == i + 1`. */
  predicate WellNumbered(q: Query)
  {
    && |q.conditions| == |q.values|
    && forall i :: 0 <= i < |q.conditions| ==> q.conditions[i].slot == i + 1
  }

  /**
   * Pushing one parameter and naming it by the list's new length keeps the
   * numbering: the new condition's placeholder names the new parameter, and
   * what was there before is untouched.
   */
  lemma PushKeepsNumbering(q: Query, column: Column, v: SqlValue)
    requires WellNumbered(q)
    ensures var r := Push(q, column, v);
            && WellNumbered(r)
            && |r.values| == |q.values| + 1
            && r.conditions[|q.conditions|] == Condition(column, |r.values|)
            && r.values[|q.values|] == v
            && r.conditions[..|q.conditions|] == q.conditions
            && r.values[..|q.values|] == q.values
  {
    var r := Push(q, column, v);
    forall i | 0 <= i < |r.conditions|
      ensures r.conditions[i].slot == i + 1
    {
      if i < |q.conditions| {
        assert r.conditions[i] == q.conditions[i];
      }
    }
  }

  /**
   * The `WHERE` clause and parameters of the product listing: the owner test
   * on `$1`; after it the name pattern on `$2` when a search is given; last
   * the status test on the final placeholder when a status is given.
   */
  function BuildListQuery(owner: nat, search: Field, status: Field): (q: Query)
    ensures WellNumbered(q)
    ensures |q.values| == 1 + (if Truthy(search) then 1 else 0) + (if Truthy(status) then 1 else 0)
    ensures q.conditions[0] == Condition(OwnerColumn, 1) && q.values[0] == Number(owner)
    ensures Truthy(search) ==>
              q.conditions[1] == Condition(NameColumn, 2) && q.values[1] == Text("%" + search.value + "%")
    ensures Truthy(status) ==>
              && q.conditions[|q.values| - 1] == Condition(StatusColumn, |q.values|)
              && q.values[|q.values| - 1] == Text(status.value)
  {
    var base := Query([Condition(OwnerColumn, 1)], [Number(owner)]);
    var withName :=
      if Truthy(search) then
        var pattern := Text("%" + search.value + "%");
        PushKeepsNumbering(base, NameColumn, pattern);
        Push(base, NameColumn, pattern)
      else base;
    if Truthy(status) then
      PushKeepsNumbering(withName, StatusColumn, Text(status.value));
      var q := Push(withName, StatusColumn, Text(status.value));
      assert q.conditions[0] == q.conditions[..|withName.conditions|][0];
      assert q.values[0] == q.values[..|withName.values|][0];
      assert Truthy(search) ==> q.conditions[1] == q.conditions[..|withName.conditions|][1];
      assert Truthy(search) ==> q.values[1] == q.values[..|withName.values|][1];
      q
    else withName
  }

  /** How the database evaluates one condition against a product row. */
  predicate Holds(c: Condition, values: seq<SqlValue>, p: Product)
  {
    1 <= c.slot <= |values| &&
    match (c.column, values[c.slot - 1])
    case (OwnerColumn, Number(n)) => p.ownerId == n
    case (NameColumn, Text(pattern)) => p.name.Some? && ILike(p.name.value, pattern)
    case (StatusColumn, Text(s)) => p.status == Some(s)
    case _ => false
  }

  /** A row passes the `WHERE` clause: every condition holds. */
  predicate Selects(q: Query, p: Product)
  {
    forall i :: 0 <= i < |q.conditions| ==> Holds(q.conditions[i], q.values, p)
  }

  /**
   * What the listing means, independently of how the clause is built: the
   * requester's products, whose name contains the search text ignoring case
   * when a search is given, whose status is the given one when a status is given.
   */
  predicate Listed(p: Product, owner: nat, search: Field, status: Field)
  {
    && p.ownerId == owner
    && (Truthy(search) ==> p.name.Some? && Contains(Lower(p.name.value), Lower(search.value)))
    && (Truthy(status) ==> p.status == status)
  }

  /** The search text stands for itself in the `ILIKE` pattern. */
  predicate LiteralSearch(search: Field)
  {
    Truthy(search) ==> Literal(search.value)
  }

  /**
   * The built clause selects exactly the listed products, provided the
   * search text holds no `LIKE` wildcard (it is inserted unescaped).
   */
  lemma QueryMeansFilter(owner: nat, search: Field, status: Field, p: Product)
    requires LiteralSearch(search)
    ensures Selects(BuildListQuery(owner, search, status), p) <==> Listed(p, owner, search, status)
  {
    var q := BuildListQuery(owner, search, status);
    var last := |q.values| - 1;
    if Truthy(search) {
      assert Holds(q.conditions[1], q.values, p) <==> p.name.Some? && ILike(p.name.value, "%" + search.value + "%");
      if p.name.Some? {
        ILikeContains(p.name.value, search.value);
      }
    }
    assert Holds(q.conditions[0], q.values, p) <==> p.ownerId == owner;
    assert Truthy(status) ==> (Holds(q.conditions[last], q.values, p) <==> p.status == status);
    if Listed(p, owner, search, status) {
      forall i | 0 <= i < |q.conditions|
        ensures Holds(q.conditions[i], q.values, p)
      {
        assert i == 0 || (i == 1 && Truthy(search)) || (i == last && Truthy(status));
      }
    }
  }

  /** The rows one product contributes to the join with `categorias`. */
  function JoinCategory(p: Product, categories: seq<Category>): (rows: seq<Row>)
    ensures forall r :: r in rows ==> r.product == p && p.categoryId.Some?
    ensures |rows| <= |categories|
  {
    if categories == [] then []
    else
      var c := categories[0];
      (if Some(c.id) == p.categoryId then [Row(p, c.name)] else []) + JoinCategory(p, categories[1..])
  }

  /**
   * The inner join's rows for `p` are exactly the product paired with the
   * name of each category whose id is the product's category.
   */
  lemma {:induction false} JoinCategoryMembers(p: Product, categories: seq<Category>, row: Row)
    ensures row in JoinCategory(p, categories) <==>
              row.product == p && p.categoryId.Some? && Category(p.categoryId.value, row.categoryName) in categories
    decreases |categories|
  {
    if categories != [] {
      var c := categories[0];
      var rest := categories[1..];
      JoinCategoryMembers(p, rest, row);
      assert categories == [c] + rest;
      assert JoinCategory(p, categories)
          == (if Some(c.id) == p.categoryId then [Row(p, c.name)] else []) + JoinCategory(p, rest);
    }
  }

  /**
   * The selected rows among the products with ids below `n`, highest id
   * first — `ORDER BY p.id DESC`.
   */
  function Scan(s: Store, q: Query, n: nat): (rows: seq<Row>)
    decreases n
  {
    if n == 0 then [] else ScanHead(s, q, n - 1) + Scan(s, q, n - 1)
  }

  /** The first step of the scan: the rows of id `n - 1`, then the rest. */
  lemma ScanStep(s: Store, q: Query, n: nat)
    requires n > 0
    ensures Scan(s, q, n) == ScanHead(s, q, n - 1) + Scan(s, q, n - 1)
  {
  }

  /** A row is in the scan up to `n` exactly when id `n - 1` contributes it or the scan below does. */
  lemma ScanStepMember(s: Store, q: Query, n: nat, row: Row)
    requires n > 0
    ensures row in Scan(s, q, n) <==> row in ScanHead(s, q, n - 1) || row in Scan(s, q, n - 1)
  {
    ScanStep(s, q, n);
  }

  /** The rows product `id` contributes to the scan: its category row when the clause selects it. */
  function ScanHead(s: Store, q: Query, id: nat): (rows: seq<Row>)
  {
    if id in s.products && Selects(q, s.products[id]) then JoinCategory(s.products[id], s.categories) else []
  }

  /** Under the store invariant, product `id` contributes at most one row, and that row is of product `id`. */
  lemma ScanHeadShape(s: Store, q: Query, id: nat)
    requires Valid(s)
    ensures |ScanHead(s, q, id)| <= 1
    ensures ScanHead(s, q, id) != [] ==> ScanHead(s, q, id)[0].product.id == id
  {
    var head := ScanHead(s, q, id);
    if id in s.products && Selects(q, s.products[id]) {
      JoinAtMostOne(s.products[id], s.categories);
      if head != [] {
        assert head[0] in JoinCategory(s.products[id], s.categories);
      }
    }
  }

  /** A row of product `id` is contributed exactly when the clause selects the stored product and a category carries that name. */
  lemma ScanHeadMembers(s: Store, q: Query, id: nat, row: Row)
    requires Valid(s)
    ensures row in ScanHead(s, q, id) <==>
              && row.product.id == id && id in s.products && s.products[id] == row.product
              && Selects(q, row.product)
              && row.product.categoryId.Some? && Category(row.product.categoryId.value, row.categoryName) in s.categories
  {
    if id in s.products && Selects(q, s.products[id]) {
      JoinCategoryMembers(s.products[id], s.categories, row);
    }
  }

  /** Every scanned row is a stored product that the clause selects. */
  lemma {:induction false} ScanSelects(s: Store, q: Query, n: nat)
    ensures forall r :: r in Scan(s, q, n) ==> r.product in s.products.Values && Selects(q, r.product)
    decreases n
  {
    if n > 0 {
      ScanStep(s, q, n);
      ScanSelects(s, q, n - 1);
    }
  }

  /** `GET /produtos?search=&status=`. */
  function ListProducts(s: Store, who: Identity, search: Field, status: Field, fault: bool): (r: Response)
    ensures r.status == 200 <==> !fault
    ensures r.status == 200 ==> r.body.Rows? && forall row :: row in r.body.rows ==> row.product.ownerId == who.userId
    ensures fault ==> r == Response(500, Message(ListFailed))
  {
    if fault then Response(500, Message(ListFailed))
    else
      var q := BuildListQuery(who.userId, search, status);
      assert forall p :: Selects(q, p) ==> p.ownerId == who.userId by {
        forall p | Selects(q, p) ensures p.ownerId == who.userId {
          assert Holds(q.conditions[0], q.values, p);
        }
      }
      ScanSelects(s, q, s.nextProductId);
      Response(200, Rows(Scan(s, q, s.nextProductId)))
  }

  /** Every row of `Scan(s, q, n)` is a product with id below `n`. */
  lemma {:induction false} ScanBelow(s: Store, q: Query, n: nat)
    requires Valid(s)
    ensures forall r :: r in Scan(s, q, n) ==> r.product.id < n
    decreases n
  {
    if n > 0 {
      var id := n - 1;
      ScanStep(s, q, n);
      ScanBelow(s, q, id);
      var head := ScanHead(s, q, id);
      forall r | r in head ensures r.product.id == id {
        assert r.product == s.products[id];
      }
    }
  }

  /** A product has at most one category row when category ids are unique. */
  lemma JoinAtMostOne(p: Product, categories: seq<Category>)
    requires forall i, j :: 0 <= i < j < |categories| ==> categories[i].id != categories[j].id
    ensures |JoinCategory(p, categories)| <= 1
    decreases |categories|
  {
    if categories != [] {
      var rest := categories[1..];
      JoinAtMostOne(p, rest);
      if Some(categories[0].id) == p.categoryId {
        assert forall k :: 0 <= k < |rest| ==> Some(rest[k].id) != p.categoryId by {
          forall k | 0 <= k < |rest| ensures Some(rest[k].id) != p.categoryId {
            assert rest[k] == categories[k + 1];
          }
        }
        JoinNoMatch(p, rest);
      }
    }
  }

  /** With no category of the product's id the join yields no row. */
  lemma JoinNoMatch(p: Product, categories: seq<Category>)
    requires forall k :: 0 <= k < |categories| ==> Some(categories[k].id) != p.categoryId
    ensures JoinCategory(p, categories) == []
    decreases |categories|
  {
    if categories != [] {
      JoinNoMatch(p, categories[1..]);
    }
  }

  /** Rows strictly ordered by descending product id. */
  predicate Descending(rows: seq<Row>)
  {
    forall i, j :: 0 <= i < j < |rows| ==> rows[i].product.id > rows[j].product.id
  }

  /** The scan lists products strictly from the highest id down. */
  lemma {:induction false} ScanDescending(s: Store, q: Query, n: nat)
    requires Valid(s)
    ensures Descending(Scan(s, q, n))
    decreases n
  {
    if n > 0 {
      var id := n - 1;
      ScanStep(s, q, n);
      ScanDescending(s, q, id);
      ScanBelow(s, q, id);
      ScanHeadShape(s, q, id);
      DescendingAppend(ScanHead(s, q, id), Scan(s, q, id), id);
    }
  }

  /** A single row of id `id` in front of descending rows below `id` stays descending. */
  lemma DescendingAppend(head: seq<Row>, tail: seq<Row>, id: nat)
    requires |head| <= 1 && (head != [] ==> head[0].product.id == id)
    requires Descending(tail) && forall r :: r in tail ==> r.product.id < id
    ensures Descending(head + tail)
  {
    forall i, j | 0 <= i < j < |head + tail|
      ensures (head + tail)[i].product.id > (head + tail)[j].product.id
    {
      assert (head + tail)[j] == tail[j - |head|];
      assert tail[j - |head|] in tail;
      if i >= |head| {
        assert (head + tail)[i] == tail[i - |head|];
      }
    }
  }

  /** A row of the scan: a product with id below `n` that the clause selects, joined to its category. */
  lemma ScanMembers(s: Store, q: Query, n: nat, row: Row)
    requires Valid(s)
    ensures row in Scan(s, q, n) <==> ScanRow(s, q, n, row)
  {
    ScanMembersSound(s, q, n, row);
    ScanMembersComplete(s, q, n, row);
  }

  /** What a row of `Scan(s, q, n)` is: a stored product with id below `n` that the clause selects, with its category's name. */
  predicate ScanRow(s: Store, q: Query, n: nat, row: Row)
  {
    && row.product.id < n && row.product.id in s.products && s.products[row.product.id] == row.product
    && Selects(q, row.product)
    && row.product.categoryId.Some? && Category(row.product.categoryId.value, row.categoryName) in s.categories
  }

  /** Every scanned row is a selected stored product with id below `n`, joined to its category. */
  lemma {:induction false} ScanMembersSound(s: Store, q: Query, n: nat, row: Row)
    requires Valid(s)
    ensures row in Scan(s, q, n) ==> ScanRow(s, q, n, row)
    decreases n
  {
    if n > 0 {
      var id := n - 1;
      ScanStep(s, q, n);
      ScanHeadMembers(s, q, id, row);
      ScanMembersSound(s, q, id, row);
    }
  }

  /** Every selected stored product with id below `n` is scanned with each of its category names. */
  lemma ScanMembersComplete(s: Store, q: Query, n: nat, row: Row)
    requires Valid(s)
    ensures ScanRow(s, q, n, row) ==> row in Scan(s, q, n)
  {
    if ScanRow(s, q, n, row) {
      ScanHeadMembers(s, q, row.product.id, row);
      ScanIncludesHead(s, q, n, row.product.id, row);
    }
  }

  /** The rows contributed by any id below `n` are all in the scan. */
  lemma {:induction false} ScanIncludesHead(s: Store, q: Query, n: nat, id: nat, row: Row)
    requires id < n && row in ScanHead(s, q, id)
    ensures row in Scan(s, q, n)
    decreases n
  {
    ScanStepMember(s, q, n, row);
    if id < n - 1 {
      ScanIncludesHead(s, q, n - 1, id, row);
    }
  }

  /**
   * The listing holds exactly the requester's products that pass the
   * filters, each with its category name, strictly newest (highest id) first.
   */
  lemma ListingContents(s: Store, who: Identity, search: Field, status: Field, row: Row)
    requires Valid(s)
    requires LiteralSearch(search)
    ensures var r := ListProducts(s, who, search, status, false);
            && Descending(r.body.rows)
            && (row in r.body.rows <==>
                  && row.product in s.products.Values
                  && Listed(row.product, who.userId, search, status)
                  && row.product.categoryId.Some?
                  && Category(row.product.categoryId.value, row.categoryName) in s.categories)
  {
    var q := BuildListQuery(who.userId, search, status);
    ScanDescending(s, q, s.nextProductId);
    ScanMembers(s, q, s.nextProductId, row);
    QueryMeansFilter(who.userId, search, status, row.product);
    if row.product in s.products.Values {
      var k :| k in s.products && s.products[k] == row.product;
      assert k == row.product.id;
    }
  }

  /** Empty filters, as the listing page sends before anything is typed, add no condition. */
  lemma EmptyFiltersAddNothing(owner: nat)
    ensures BuildListQuery(owner, Some(""), Some("")) == Query([Condition(OwnerColumn, 1)], [Number(owner)])
    ensures BuildListQuery(owner, None, None) == Query([Condition(OwnerColumn, 1)], [Number(owner)])
  {
  }

  /** With both filters the search pattern is `$2` and the status `$3`. */
  lemma BothFiltersNumbering(owner: nat, search: string, status: string)
    requires search != "" && status != ""
    ensures BuildListQuery(owner, Some(search), Some(status))
         == Query([Condition(OwnerColumn, 1), Condition(NameColumn, 2), Condition(StatusColumn, 3)],
                  [Number(owner), Text("%" + search + "%"), Text(status)])
  {
  }

  /** A status filter alone takes placeholder `$2`. */
  lemma StatusAloneNumbering(owner: nat, status: string)
    requires status != ""
    ensures BuildListQuery(owner, Some(""), Some(status))
         == Query([Condition(OwnerColumn, 1), Condition(StatusColumn, 2)], [Number(owner), Text(status)])
  {
  }

  // ----- Categories -----

  /** Code-point lexicographic order on strings. */
  predicate StrLe(a: string, b: string)
  {
    a == [] || (b != [] && (a[0] < b[0] || (a[0] == b[0] && StrLe(a[1..], b[1..]))))
  }

  /** Any two names are comparable. */
  lemma {:induction false} StrLeTotal(a: string, b: string)
    ensures StrLe(a, b) || StrLe(b, a)
  {
    if a != [] && b != [] && a[0] == b[0] {
      StrLeTotal(a[1..], b[1..]);
    }
  }

  /** Name order is transitive. */
  lemma {:induction false} StrLeTransitive(a: string, b: string, c: string)
    requires StrLe(a, b) && StrLe(b, c)
    ensures StrLe(a, c)
  {
    if a != [] && b != [] && c != [] && a[0] == b[0] && b[0] == c[0] {
      StrLeTransitive(a[1..], b[1..], c[1..]);
    }
  }

  /** Consecutive categories are in ascending name order. */
  predicate SortedByName(cs: seq<Category>)
  {
    forall i :: 0 < i < |cs| ==> StrLe(cs[i - 1].name, cs[i].name)
  }

  /** Place `c` before the first category whose name is not below it. */
  function Insert(c: Category, cs: seq<Category>): (r: seq<Category>)
    requires SortedByName(cs)
    ensures SortedByName(r)
    ensures multiset(r) == multiset(cs) + multiset{c}
    ensures r != [] && (r[0] == c || (cs != [] && r[0] == cs[0]))
  {
    if cs == [] || StrLe(c.name, cs[0].name) then
      [c] + cs
    else
      StrLeTotal(c.name, cs[0].name);
      var rest := Insert(c, cs[1..]);
      assert cs == [cs[0]] + cs[1..];
      [cs[0]] + rest
  }

  /** `ORDER BY nome ASC` over the category table. */
  function SortByName(cs: seq<Category>): (r: seq<Category>)
    ensures SortedByName(r)
    ensures multiset(r) == multiset(cs)
  {
    if cs == [] then []
    else
      assert cs == [cs[0]] + cs[1..];
      Insert(cs[0], SortByName(cs[1..]))
  }

  /** Ascending neighbours make the whole sequence ascending. */
  lemma {:induction false} SortedByNameAllPairs(cs: seq<Category>, i: nat, j: nat)
    requires SortedByName(cs)
    requires i <= j < |cs|
    ensures StrLe(cs[i].name, cs[j].name)
    decreases j - i
  {
    if i == j {
      StrLeReflexive(cs[i].name);
    } else {
      SortedByNameAllPairs(cs, i, j - 1);
      StrLeTransitive(cs[i].name, cs[j - 1].name, cs[j].name);
    }
  }

  /** Every name is ordered before or with itself. */
  lemma {:induction false} StrLeReflexive(a: string)
    ensures StrLe(a, a)
  {
    if a != [] {
      StrLeReflexive(a[1..]);
    }
  }

  /** `GET /categorias`: every category, in ascending name order, for any authenticated user. */
  function ListCategories(s: Store, fault: bool): (r: Response)
    ensures r.status == 200 <==> !fault
    ensures r.status == 200 ==>
              && r.body.Categories?
              && multiset(r.body.categories) == multiset(s.categories)
              && (forall i, j :: 0 <= i < j < |r.body.categories| ==> StrLe(r.body.categories[i].name, r.body.categories[j].name))
    ensures fault ==> r == Response(500, Message(CategoriesFailed))
  {
    if fault then Response(500, Message(CategoriesFailed))
    else
      var sorted := SortByName(s.categories);
      assert forall i, j :: 0 <= i < j < |sorted| ==> StrLe(sorted[i].name, sorted[j].name) by {
        forall i, j | 0 <= i < j < |sorted| ensures StrLe(sorted[i].name, sorted[j].name) {
          SortedByNameAllPairs(sorted, i, j);
        }
      }
      Response(200, Categories(sorted))
  }

  /**
   * Because the search text is not escaped, the search `_` lists the
   * product named "a", whose name holds no underscore.
   */
  lemma UnescapedSearchWidensListing(owner: nat)
    ensures var p := Product(0, Some("a"), None, Some("1"), Some("ativo"), None, owner, Some("1"));
            && Selects(BuildListQuery(owner, Some("_"), None), p)
            && !Listed(p, owner, Some("_"), None)
  {
    WildcardSearchIsNotLiteral();
    var p := Product(0, Some("a"), None, Some("1"), Some("ativo"), None, owner, Some("1"));
    var q := BuildListQuery(owner, Some("_"), None);
    assert q == Query([Condition(OwnerColumn, 1), Condition(NameColumn, 2)], [Number(owner), Text("%" + "_" + "%")]);
    assert Holds(q.conditions[1], q.values, p);
  }
}
