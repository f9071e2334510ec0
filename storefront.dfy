/** How the gate and the handlers fit together: the request pipeline runs
    the authentication gate before every endpoint. */
module Storefront {
  import opened Http
  import opened Guids
  import opened Accounts
  import opened Gate
  import opened Images
  import opened Orders

  /** /place-order checks the session itself, so the gate in front of it
      changes none of its answers. */
  lemma PlaceOrderGateIsRedundant(users: seq<User>, products: seq<Product>,
                                  session: map<string, string>, field: StringValues, csrfValid: bool)
    ensures Serve("/place-order", session, PlaceOrder(users, products, session, field, csrfValid)) ==
            PlaceOrder(users, products, session, field, csrfValid)
  {
    if GateDecision("/place-order", session) != Continue {
      assert CurrentUser(users, session) == Anonymous;
    }
  }

  /** /images reads no session: the gate alone keeps a request without a
      signed-in user away from the files, whatever it asks for. */
  lemma ImagesOnlyBehindGate(cwd: seq<string>, query: StringValues, files: set<string>, session: map<string, string>)
    requires UserIdKey !in session || session[UserIdKey] == ""
    ensures Serve("/images", session, ImagesEndpoint(cwd, query, files)) == Redirect("/")
  {
  }

  /** Logging in and then submitting a rendered order form with a valid
      token places the order, provided user Ids are distinct and the
      product's Id is the first of its kind. */
  lemma LoginThenOrder(users: seq<User>, products: seq<Product>, session: map<string, string>,
                       email: StringValues, password: StringValues, i: nat)
    requires UniqueIds(users)
    requires FindByCredentials(users, email, password).Some?
    requires i < |products| && products[i].id.Some?
    requires Int32Text.MinInt32 <= products[i].id.value <= Int32Text.MaxInt32
    requires forall j :: 0 <= j < i ==> products[j].id != products[i].id
    ensures var u := FindByCredentials(users, email, password).value;
      var after := session[UserIdKey := GuidText(u.id)];
      && Serve("/place-order", after, PlaceOrder(users, products, after, [IdField(products[i].id)], true)) ==
         OrderPlaced(products[i].name)
  {
    var u := FindByCredentials(users, email, password).value;
    var after := session[UserIdKey := GuidText(u.id)];
    LoginThenKnown(users, session, email, password);
    SubmittedFormOrdersItsProduct(users, products, after, i);
    PlaceOrderGateIsRedundant(users, products, after, [IdField(products[i].id)], true);
  }
}
