/**
 * The rule that routes a command-line project reference to an account and
 * a project name: a bare name uses the default account; a reference that
 * starts with `http:` or `https:` is split at its last '/' into the API URL,
 * which selects the account, and the project name.
 */
module Routing {
  import opened BuildService

  /** Which account a reference asks for. */
  datatype AccountKey = DefaultAccount | ApiAccount(api: string)

  datatype Route = Route(key: AccountKey, project: string)

  predicate StartsWith(s: string, prefix: string)
  {
    |prefix| <= |s| && s[..|prefix|] == prefix
  }

  /** The test that decides whether a reference names its service. */
  predicate IsUrl(reference: string)
  {
    StartsWith(reference, "http:") || StartsWith(reference, "https:")
  }

  /** String.LastIndexOf for one character: the greatest index holding `c`, or -1 when there is none. */
  function LastIndexOf(s: string, c: char): (i: int)
    ensures -1 <= i < |s|
    ensures 0 <= i ==> s[i] == c
    ensures forall j :: i < j < |s| ==> s[j] != c
  {
    if s == [] then -1
    else if s[|s| - 1] == c then |s| - 1
    else LastIndexOf(s[..|s| - 1], c)
  }

  /**
   * The routing rule of LoadPackages. A URL reference without any '/' makes
   * Substring throw; that is the MalformedReference failure.
   */
  function RouteReference(reference: string): (r: Result<Route>)
    ensures !IsUrl(reference) ==> r == Ok(Route(DefaultAccount, reference))
    ensures r.Err? <==> IsUrl(reference) && '/' !in reference
    ensures IsUrl(reference) && r.Ok? ==>
      && r.value.key.ApiAccount?
      && r.value.key.api + "/" + r.value.project == reference
      && '/' !in r.value.project
  {
    if !IsUrl(reference) then Ok(Route(DefaultAccount, reference))
    else
      var slash := LastIndexOf(reference, '/');
      if slash < 0 then Err(MalformedReference(reference))
      else
        assert reference[..slash] + "/" + reference[slash + 1..] == reference;
        Ok(Route(ApiAccount(reference[..slash]), reference[slash + 1..]))
  }

  /** The reference a route is written as: its inverse of RouteReference. */
  function ReferenceOf(route: Route): string
  {
    match route.key
    case DefaultAccount => route.project
    case ApiAccount(api) => api + "/" + route.project
  }

  /** A route that some reference produces: a bare name is not a URL, an API URL is one and the project holds no '/'. */
  predicate Routable(route: Route)
  {
    match route.key
    case DefaultAccount => !IsUrl(route.project)
    case ApiAccount(api) => IsUrl(api) && '/' !in route.project
  }

  /** Every reference that routes successfully is written back exactly by its route. */
  lemma RouteThenReference(reference: string)
    requires RouteReference(reference).Ok?
    ensures Routable(RouteReference(reference).value)
    ensures ReferenceOf(RouteReference(reference).value) == reference
  {
    if IsUrl(reference) {
      var slash := LastIndexOf(reference, '/');
      UrlBeforeSlash(reference, slash);
    }
  }

  /** The part of a URL before one of its '/' characters is still a URL: neither scheme holds a '/'. */
  lemma UrlBeforeSlash(reference: string, n: int)
    requires IsUrl(reference)
    requires 0 <= n < |reference| && reference[n] == '/'
    ensures IsUrl(reference[..n])
  {
    if StartsWith(reference, "http:") {
      assert reference[..5] == "http:";
      assert reference[..n][..5] == "http:";
    } else {
      assert reference[..6] == "https:";
      assert reference[..n][..6] == "https:";
    }
  }

  /** Every routable route is what its own reference routes to. */
  lemma ReferenceThenRoute(route: Route)
    requires Routable(route)
    ensures RouteReference(ReferenceOf(route)) == Ok(route)
  {
    if route.key.ApiAccount? {
      var api := route.key.api;
      var reference := api + "/" + route.project;
      PrefixKeepsUrl(api, "/" + route.project);
      assert reference[|api|] == '/';
      assert forall j :: |api| < j < |reference| ==> reference[j] == route.project[j - |api| - 1];
      var slash := LastIndexOf(reference, '/');
      assert slash == |api|;
      assert reference[..slash] == api;
      assert reference[slash + 1..] == route.project;
    }
  }

  /** Appending to a URL keeps it a URL. */
  lemma PrefixKeepsUrl(s: string, t: string)
    requires IsUrl(s)
    ensures IsUrl(s + t)
  {
    if StartsWith(s, "http:") {
      assert (s + t)[..5] == s[..5];
    } else {
      assert (s + t)[..6] == s[..6];
    }
  }

  /** `accounts.DefaultAccount`, or `accounts[api]` for a URL reference. */
  function LookupAccount(accounts: AccountCollection, key: AccountKey): (r: Result<Account>)
    ensures key.DefaultAccount? ==> r == Ok(accounts.defaultAccount)
    ensures key.ApiAccount? ==> (r.Ok? <==> key.api in accounts.byApi)
    ensures key.ApiAccount? && r.Ok? ==> r.value == accounts.byApi[key.api]
    ensures key.ApiAccount? && r.Err? ==> r.error == UnknownAccount(key.api)
  {
    match key
    case DefaultAccount => Ok(accounts.defaultAccount)
    case ApiAccount(api) =>
      if api in accounts.byApi then Ok(accounts.byApi[api]) else Err(UnknownAccount(api))
  }
}
