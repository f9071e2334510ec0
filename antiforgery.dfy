/** The request-token side of ASP.NET Core's IAntiforgery service as the
    storefront uses it. GetAndStoreTokens generates a request token the
    first time it is called during a request and caches it in the
    request's antiforgery feature; every later call during the same
    request hands back that cached token. The token's cryptographic
    content is not modelled: a token is opaque text, and the value a
    generation would produce is supplied by the caller. Whether a
    submitted form passes IsRequestValidAsync is a boolean oracle given to
    the order handler (see Orders). */
module Antiforgery {
  import opened Runtime

  /** An opaque serialized request token, as written into the __CSRF field. */
  datatype Token = Token(text: string)

  /** The token a GetAndStoreTokens call hands back, given what the
      request has cached so far and what a generation would produce. */
  function RequestTokenOf(cached: Option<Token>, generated: Token): Token
  {
    if cached.Some? then cached.value else generated
  }

  /** The antiforgery feature of one request: the request token generated
      for it so far, if any. */
  class RequestFeature {
    var requestToken: Option<Token>

    /** A new request has no request token yet. */
    constructor ()
      ensures requestToken == None
    {
      requestToken := None;
    }

    /** GetAndStoreTokens(context).RequestToken: the request's cached
        token when there is one; otherwise `generated`, which is cached
        for the rest of the request. */
    method GetAndStoreTokens(generated: Token) returns (t: Token)
      modifies this
      ensures t == RequestTokenOf(old(requestToken), generated)
      ensures old(requestToken).Some? ==> requestToken == old(requestToken)
      ensures requestToken == Some(t)
    {
      if requestToken.None? {
        requestToken := Some(generated);
      }
      t := requestToken.value;
    }
  }
}
