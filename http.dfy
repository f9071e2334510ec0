/** The slice of ASP.NET Core's HTTP surface the storefront's handlers use:
    what a handler leaves in the response, form and query values
    (StringValues) and the per-browser session. */
module Http {
  import opened Runtime
  import opened Antiforgery

  /** One "Place Order" form of the product listing: the hidden
      product_id field's text, the product image shown beside it, and the
      hidden __CSRF field's request token. */
  datatype OrderForm = OrderForm(productId: string, image: string, token: Token)

  /** The observable result of a request. */
  datatype Response =
    | Redirect(location: string)          // Response.Redirect: 302 with Location
    | Text(status: int, body: string)     // optional StatusCode, then WriteAsync
    | SendFile(path: string)              // Response.SendFileAsync
    | ProductPage(forms: seq<OrderForm>)  // the "Product Listing" page
    | OrderPlaced(productName: string)    // the "Order Placed" page
    | Crash(exception: Exception)         // an exception escaped the handler (500)

  /** A form or query value: zero, one or several strings. */
  type StringValues = seq<string>

  /** The values that are neither null nor empty, in their order. */
  function NonEmpty(values: seq<string>): (r: seq<string>)
    ensures |r| <= |values|
    ensures forall v :: v in r <==> v in values && v != ""
  {
    if values == [] then []
    else if values[0] == "" then NonEmpty(values[1..])
    else [values[0]] + NonEmpty(values[1..])
  }

  /** The strings joined with commas, as String.Join(",", values). */
  function JoinComma(values: seq<string>): (s: string)
    ensures |values| == 1 ==> s == values[0]
    ensures |values| >= 2 ==> ',' in s
  {
    if values == [] then ""
    else if |values| == 1 then values[0]
    else values[0] + "," + JoinComma(values[1..])
  }

  /** The implicit conversion StringValues -> string: null when there is no
      value, the value itself when there is one, and otherwise the values
      that are not empty joined with commas (empty ones are skipped, so
      several values that are all empty give ""). */
  function AsString(values: StringValues): (r: Option<string>)
    ensures r.None? <==> values == []
    ensures |values| == 1 ==> r == Some(values[0])
    ensures |values| >= 2 && NonEmpty(values) == [] ==> r == Some("")
    ensures |values| >= 2 && |NonEmpty(values)| == 1 ==> r == Some(NonEmpty(values)[0])
    ensures |NonEmpty(values)| >= 2 ==> r.Some? && ',' in r.value
  {
    if values == [] then None
    else if |values| == 1 then Some(values[0])
    else Some(JoinComma(NonEmpty(values)))
  }

  /** StringValues.ToString(): the conversion above, with "" for no value. */
  function ToStringOrEmpty(values: StringValues): (s: string)
    ensures values == [] ==> s == ""
    ensures |values| == 1 ==> s == values[0]
    ensures NonEmpty(values) == [] ==> s == ""
    ensures |NonEmpty(values)| == 1 ==> s == NonEmpty(values)[0]
    ensures |NonEmpty(values)| >= 2 ==> ',' in s
  {
    match AsString(values)
    case None => ""
    case Some(s) => s
  }

  /** Empty values after the first change no conversion. */
  lemma {:induction false} NonEmptyAppendBlanks(values: seq<string>, blanks: seq<string>)
    requires forall k :: 0 <= k < |blanks| ==> blanks[k] == ""
    ensures NonEmpty(values + blanks) == NonEmpty(values)
    decreases |values| + |blanks|
  {
    if values == [] {
      if blanks != [] {
        assert ([] + blanks)[1..] == [] + blanks[1..];
        NonEmptyAppendBlanks([], blanks[1..]);
      }
    } else {
      assert (values + blanks)[1..] == values[1..] + blanks;
      NonEmptyAppendBlanks(values[1..], blanks);
    }
  }

  /** Empty values submitted after at least one value do not change what
      the conversion to string yields. */
  lemma BlankValuesIgnored(values: StringValues, blanks: seq<string>)
    requires values != []
    requires forall k :: 0 <= k < |blanks| ==> blanks[k] == ""
    ensures AsString(values + blanks) == AsString(values)
  {
    NonEmptyAppendBlanks(values, blanks);
    if |values| == 1 && blanks != [] {
      assert values[1..] == [];
      assert NonEmpty(values) == (if values[0] == "" then [] else [values[0]]);
    }
  }

  /** `text == values` between a string and StringValues: exactly one value, equal to text. */
  predicate EqualsString(text: string, values: StringValues)
  {
    values == [text]
  }

  /** string.IsNullOrEmpty. */
  predicate IsNullOrEmpty(s: Option<string>)
  {
    s.None? || s.value == ""
  }

  /** ISession.GetString: null when the key was never set. */
  function GetString(values: map<string, string>, key: string): (r: Option<string>)
    ensures r.Some? <==> key in values
    ensures r.Some? ==> r.value == values[key]
  {
    if key in values then Some(values[key]) else None
  }

  /** The server-side session of one browser: a string-keyed store. */
  class Session {
    var values: map<string, string>

    constructor ()
      ensures values == map[]
    {
      values := map[];
    }

    /** ISession.SetString: overwrites the key, leaves every other key alone. */
    method SetString(key: string, value: string)
      modifies this
      ensures values == old(values)[key := value]
      ensures GetString(values, key) == Some(value)
      ensures forall k :: k != key ==> GetString(values, k) == GetString(old(values), k)
    {
      values := values[key := value];
    }
  }
}
