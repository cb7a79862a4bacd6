/**
 * The admin gate of the catalog server (`requireAuth`): a request carries
 * an `Authorization` header and an `x-admin-token` header, each possibly
 * absent (modelled as the empty string, which is how the handler reads an
 * absent header). The token after a case-sensitive `"Bearer "` prefix wins
 * over `x-admin-token` whenever it is non-empty.
 */
module Auth {
  import opened Common

  const BearerPrefix: string := "Bearer "

  /** The token the server falls back on when `ADMIN_TOKEN` is unset or empty. */
  const DefaultAdminToken: string := "changeme"

  /** `process.env.ADMIN_TOKEN || 'changeme'`: the configured token, never empty. */
  function ServerAdminToken(env: string): (t: string)
    ensures t != ""
    ensures env != "" ==> t == env
  {
    if env == "" then DefaultAdminToken else env
  }

  /** The text after `"Bearer "`, or the empty string when the header lacks that prefix. */
  function BearerValue(authorization: string): (b: string)
    ensures StartsWith(authorization, BearerPrefix) ==> authorization == BearerPrefix + b
    ensures !StartsWith(authorization, BearerPrefix) ==> b == ""
  {
    if StartsWith(authorization, BearerPrefix) then authorization[|BearerPrefix|..] else ""
  }

  /** `bearer || token`: the credential the gate compares. */
  function ProvidedToken(authorization: string, adminHeader: string): (p: string)
    ensures BearerValue(authorization) != "" ==> p == BearerValue(authorization)
    ensures BearerValue(authorization) == "" ==> p == adminHeader
  {
    var bearer := BearerValue(authorization);
    if bearer != "" then bearer else adminHeader
  }

  /** The request passes `requireAuth`; otherwise the handler answers 401. */
  predicate Authorized(adminToken: string, authorization: string, adminHeader: string) {
    var provided := ProvidedToken(authorization, adminHeader);
    provided != "" && provided == adminToken
  }

  /** The gate, stated on the two headers directly: a request passes exactly
      when the configured token is non-empty and either the Authorization
      header is `"Bearer "` followed by it or, when that header carries no
      bearer value, `x-admin-token` equals it. */
  lemma AuthorizedIff(adminToken: string, authorization: string, adminHeader: string)
    ensures Authorized(adminToken, authorization, adminHeader) <==>
      adminToken != "" &&
      (if StartsWith(authorization, BearerPrefix) && |authorization| > |BearerPrefix|
       then authorization == BearerPrefix + adminToken
       else adminHeader == adminToken)
  {
    var b := BearerValue(authorization);
    if StartsWith(authorization, BearerPrefix) && |authorization| > |BearerPrefix| {
      assert |b| > 0;
      if authorization == BearerPrefix + adminToken {
        assert b == adminToken;
      }
    } else if StartsWith(authorization, BearerPrefix) {
      assert |b| == 0;
    }
  }

  /** A non-empty bearer value that is wrong is rejected even when
      `x-admin-token` carries the right token. */
  lemma WrongBearerOverridesHeader(adminToken: string, bearer: string)
    requires bearer != "" && bearer != adminToken
    ensures !Authorized(adminToken, BearerPrefix + bearer, adminToken)
  {
    var a := BearerPrefix + bearer;
    assert StartsWith(a, BearerPrefix);
    assert a[|BearerPrefix|..] == bearer;
  }

  /** The scheme is matched case-sensitively: `"bearer <token>"` is not a
      bearer credential, so without `x-admin-token` it is rejected. */
  lemma LowerCaseSchemeRejected(adminToken: string)
    ensures !Authorized(adminToken, "bearer " + adminToken, "")
  {
    var a := "bearer " + adminToken;
    assert a[0] == 'b';
    assert !StartsWith(a, BearerPrefix);
  }

  /** A request with neither header is always rejected, and with the token the
      server runs with (never empty) no empty credential can pass. */
  lemma MissingCredentialsRejected(env: string, authorization: string, adminHeader: string)
    requires ProvidedToken(authorization, adminHeader) == ""
    ensures !Authorized(ServerAdminToken(env), authorization, adminHeader)
  {
  }

  /** The right token in either header is accepted, provided the other
      header does not carry a different bearer value. */
  lemma RightTokenAccepted(env: string)
    ensures Authorized(ServerAdminToken(env), BearerPrefix + ServerAdminToken(env), "")
    ensures Authorized(ServerAdminToken(env), "", ServerAdminToken(env))
  {
    var t := ServerAdminToken(env);
    var a := BearerPrefix + t;
    assert StartsWith(a, BearerPrefix);
    assert a[|BearerPrefix|..] == t;
  }
}
