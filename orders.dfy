/** GET /products, which renders one "Place Order" form per product with
    the request's antiforgery token, and POST /place-order,
    whose guards run in a fixed order: session, Guid, product_id,
    user, CSRF token, product. */
module Orders {
  import opened Runtime
  import opened Http
  import opened Antiforgery
  import opened Int32Text
  import opened Accounts

  /** A catalogue entry; Id and Name are nullable in the source. The price
      only feeds the page text and is not modelled. */
  datatype Product = Product(id: Option<int>, name: string, image: string)

  function SeedProducts(): seq<Product>
  {
    [ Product(Some(1), "Shoes", "shoes.jpg"),
      Product(Some(2), "Apple", "apple.png"),
      Product(Some(3), "Hat", "hat.jpg") ]
  }

  /** The hidden product_id field's text: the Id printed, empty for a null Id. */
  function IdField(id: Option<int>): string
  {
    match id
    case None => ""
    case Some(n) => FormatInt(n)
  }

  /** The product lookup's test: p.Id == productId. */
  function HasProductId(id: int): Product -> bool
  {
    (p: Product) => p.id == Some(id)
  }

  /** GET /products: a request whose session names a known user gets one
      form per product, in catalogue order. Every form carries the request
      token GetAndStoreTokens hands back, and that is one token for the
      whole request: the one already cached for it, or else `generated`,
      which is then cached. Any other request is redirected to "/" (or
      fails, when the session's UserId is not a Guid) and leaves the
      antiforgery feature untouched. */
  method ListProducts(users: seq<User>, products: seq<Product>, session: Session,
                      feature: RequestFeature, generated: Token)
    returns (response: Response)
    modifies feature
    ensures match CurrentUser(users, session.values)
      case Known(_) =>
        && response.ProductPage?
        && |response.forms| == |products|
        && (forall i :: 0 <= i < |products| ==>
              && response.forms[i].productId == IdField(products[i].id)
              && response.forms[i].image == products[i].image
              && response.forms[i].token == RequestTokenOf(old(feature.requestToken), generated))
        && feature.requestToken ==
           (if products == [] then old(feature.requestToken)
            else Some(RequestTokenOf(old(feature.requestToken), generated)))
      case Malformed(e) => response == Crash(e) && feature.requestToken == old(feature.requestToken)
      case _ => response == Redirect("/") && feature.requestToken == old(feature.requestToken)
  {
    var access := CurrentUser(users, session.values);
    if !access.Known? {
      response := if access.Malformed? then Crash(access.exception) else Redirect("/");
      return;
    }
    ghost var cached := feature.requestToken;
    ghost var token := RequestTokenOf(cached, generated);
    var forms: seq<OrderForm> := [];
    for i := 0 to |products|
      invariant |forms| == i
      invariant forall k :: 0 <= k < i ==>
        && forms[k].productId == IdField(products[k].id)
        && forms[k].image == products[k].image
        && forms[k].token == token
      invariant feature.requestToken == if i == 0 then cached else Some(token)
    {
      var t := feature.GetAndStoreTokens(generated);
      forms := forms + [OrderForm(IdField(products[i].id), products[i].image, t)];
    }
    response := ProductPage(forms);
  }

  const CsrfFailed: string := "CSRF validation failed"
  const ProductNotFound: string := "Product not found"

  /** POST /place-order. productIdField is the posted product_id value and
      csrfValid what IsRequestValidAsync answers for the request. */
  function PlaceOrder(users: seq<User>, products: seq<Product>, session: map<string, string>,
                      productIdField: StringValues, csrfValid: bool): (r: Response)
    ensures r.OrderPlaced? ==> csrfValid && CurrentUser(users, session).Known?
    ensures r == Text(403, CsrfFailed) ==> !csrfValid
  {
    var access := CurrentUser(users, session);
    if access == Anonymous then Redirect("/")
    else if access.Malformed? then Crash(access.exception)
    else
      match ParseInt32(AsString(productIdField))
      case Throws(e) => Crash(e)
      case Returns(productId) =>
        if access == UnknownUser then Redirect("/")
        else if !csrfValid then Text(403, CsrfFailed)
        else
          match Find(products, HasProductId(productId))
          case None => Text(404, ProductNotFound)
          case Some(p) => OrderPlaced(p.name)
  }

  /** An order is placed only for a known user, with a valid token, for a
      product id that parsed and names a catalogue entry: the CSRF check
      precedes every "Order Placed" outcome. */
  lemma OrderPlacedOnlyAfterAllGuards(users: seq<User>, products: seq<Product>, session: map<string, string>,
                                      field: StringValues, csrfValid: bool)
    requires PlaceOrder(users, products, session, field, csrfValid).OrderPlaced?
    ensures csrfValid
    ensures CurrentUser(users, session).Known?
    ensures var id := ParseInt32(AsString(field));
      id.Returns? &&
      exists p :: p in products && p.id == Some(id.value) &&
        PlaceOrder(users, products, session, field, csrfValid) == OrderPlaced(p.name)
  {
    var id := ParseInt32(AsString(field)).value;
    var p := Find(products, HasProductId(id)).value;
    assert p in products && p.id == Some(id);
  }

  /** Every outcome of the guard chain. */
  lemma PlaceOrderOutcomes(users: seq<User>, products: seq<Product>, session: map<string, string>,
                           field: StringValues, csrfValid: bool)
    ensures var r := PlaceOrder(users, products, session, field, csrfValid);
      var access := CurrentUser(users, session);
      var id := ParseInt32(AsString(field));
      && (access == Anonymous ==> r == Redirect("/"))
      && (access.Malformed? ==> r == Crash(FormatException))
      && (access == UnknownUser ==> r == (if id.Throws? then Crash(id.exception) else Redirect("/")))
      && (access.Known? && id.Throws? ==> r == Crash(id.exception))
      && (access.Known? && id.Returns? && !csrfValid ==> r == Text(403, CsrfFailed))
      && (access.Known? && id.Returns? && csrfValid && (forall p :: p in products ==> p.id != Some(id.value)) ==>
            r == Text(404, ProductNotFound))
  {
  }

  /** The token oracle is consulted only for a known user: for any other
      session the answer does not depend on it. */
  lemma TokenCheckedOnlyForKnownUsers(users: seq<User>, products: seq<Product>, session: map<string, string>,
                                      field: StringValues)
    requires !CurrentUser(users, session).Known?
    ensures PlaceOrder(users, products, session, field, true) == PlaceOrder(users, products, session, field, false)
    ensures !PlaceOrder(users, products, session, field, true).OrderPlaced?
  {
  }

  /** product_id is parsed before the user is checked: for a session
      naming no user, a product_id without the integer layout (white
      space, optional sign, digits, white space) fails with
      FormatException and a missing one with ArgumentNullException,
      instead of being redirected. */
  lemma ParseRunsBeforeUserCheck(users: seq<User>, products: seq<Product>, session: map<string, string>,
                                 text: string, csrfValid: bool)
    requires CurrentUser(users, session) == UnknownUser
    requires forall i, j, k :: !IntegerTextAt(text, i, j, k)
    ensures PlaceOrder(users, products, session, [text], csrfValid) == Crash(FormatException)
    ensures PlaceOrder(users, products, session, [], csrfValid) == Crash(ArgumentNullException)
  {
    ParseInt32Outcomes(text);
  }

  /** Empty product_id values posted after a value are skipped by the
      conversion to string, so they change no answer. */
  lemma {:induction false} BlankIdRepeatsIgnored(users: seq<User>, products: seq<Product>, session: map<string, string>,
                              field: StringValues, blanks: seq<string>, csrfValid: bool)
    requires field != []
    requires forall k :: 0 <= k < |blanks| ==> blanks[k] == ""
    ensures PlaceOrder(users, products, session, field + blanks, csrfValid) ==
            PlaceOrder(users, products, session, field, csrfValid)
  {
    BlankValuesIgnored(field, blanks);
    var text := AsString(field);
    assert AsString(field + blanks) == text;
  }

  /** Submitting the form rendered for products[i], with a valid token,
      orders exactly that product (the first catalogue entry with its Id). */
  lemma SubmittedFormOrdersItsProduct(users: seq<User>, products: seq<Product>,
                                      session: map<string, string>, i: nat)
    requires CurrentUser(users, session).Known?
    requires i < |products| && products[i].id.Some?
    requires MinInt32 <= products[i].id.value <= MaxInt32
    requires forall j :: 0 <= j < i ==> products[j].id != products[i].id
    ensures PlaceOrder(users, products, session, [IdField(products[i].id)], true) == OrderPlaced(products[i].name)
  {
    var n := products[i].id.value;
    ParseFormat(n);
    FindFirst(products, HasProductId(n), i);
  }

  /** A form rendered for a product with a null Id carries an empty
      product_id, which int.Parse refuses. */
  lemma NullIdFormFails(users: seq<User>, products: seq<Product>, session: map<string, string>,
                        i: nat, csrfValid: bool)
    requires CurrentUser(users, session).Known?
    requires i < |products| && products[i].id.None?
    ensures PlaceOrder(users, products, session, [IdField(products[i].id)], csrfValid) == Crash(FormatException)
  {
    assert TrimEnd(TrimStart("")) == "";
  }

  /** Each seed product's form orders that product. */
  lemma SeedFormsOrderTheirProducts(users: seq<User>, session: map<string, string>, i: nat)
    requires CurrentUser(users, session).Known?
    requires i < 3
    ensures PlaceOrder(users, SeedProducts(), session, [IdField(SeedProducts()[i].id)], true) ==
            OrderPlaced(SeedProducts()[i].name)
  {
    SubmittedFormOrdersItsProduct(users, SeedProducts(), session, i);
  }
}
