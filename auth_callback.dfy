/**
 * The OAuth / e-mail confirmation callback route: from the query parameters, the
 * request's origin, the environment and the code-exchange outcome, it decides
 * where the browser is redirected and whether a code is exchanged.
 */
module AuthCallback {
  import opened Wrappers
  import opened UrlParams
  import opened UriEncoding
  import opened Text

  const DefaultNext := "/dashboard"
  const CouldNotAuthenticate := "Could not authenticate user"

  /** The environment the route reads: `NODE_ENV === "development"` and `NEXT_PUBLIC_SITE_URL`. */
  datatype Env = Env(isDevelopment: bool, siteUrl: Option<string>)

  /** The redirect, and the code handed to the session exchange when one is attempted. */
  datatype CallbackResult = CallbackResult(redirect: string, exchanged: Option<string>)

  /** JavaScript truthiness of a string that may be null. */
  predicate Truthy(v: Option<string>) {
    v.Some? && v.value != ""
  }

  /** The login page with an error message, encoded as one query component. */
  function LoginError(origin: string, message: string): (url: string)
    ensures IsPrefix(origin + "/login?error=", url)
    ensures url[|origin + "/login?error="|..] == EncodeUriComponent(message)
  {
    origin + "/login?error=" + EncodeUriComponent(message)
  }

  /** The message can never add a parameter or a fragment to the login URL. */
  lemma LoginErrorIsOneParameter(origin: string, message: string)
    ensures var tail := LoginError(origin, message)[|origin + "/login?error="|..];
      forall i :: 0 <= i < |tail| ==> tail[i] != '&' && tail[i] != '#' && tail[i] != '='
  {
    EncodedIsUriSafe(message);
  }

  /** `searchParams.get("next") ?? "/dashboard"`: only an absent parameter falls back. */
  function NextPath(query: Params): (next: string)
    ensures Get(query, "next").Some? ==> next == Get(query, "next").value
    ensures Get(query, "next").None? ==> next == DefaultNext
  {
    Get(query, "next").GetOr(DefaultNext)
  }

  /** The redirect base after a successful exchange, in the route's order of preference. */
  function RedirectBase(origin: string, env: Env, forwardedHost: Option<string>): (base: string)
    ensures env.isDevelopment ==> base == origin
    ensures !env.isDevelopment && Truthy(env.siteUrl) ==> base == env.siteUrl.value
    ensures !env.isDevelopment && !Truthy(env.siteUrl) && Truthy(forwardedHost) ==> base == "https://" + forwardedHost.value
    ensures !env.isDevelopment && !Truthy(env.siteUrl) && !Truthy(forwardedHost) ==> base == origin
  {
    if env.isDevelopment then origin
    else if Truthy(env.siteUrl) then env.siteUrl.value
    else if Truthy(forwardedHost) then "https://" + forwardedHost.value
    else origin
  }

  /**
   * `GET`, as written. `exchangeError` is the exchange's error message when it
   * fails; it is only looked at when a code is exchanged.
   */
  function HandleCallback(query: Params, origin: string, env: Env, forwardedHost: Option<string>,
                          exchangeError: Option<string>): (r: CallbackResult)
    ensures r.exchanged.Some? <==> !Truthy(Get(query, "error")) && Truthy(Get(query, "code"))
    ensures r.exchanged.Some? ==> r.exchanged == Get(query, "code")
  {
    var error := Get(query, "error");
    var description := Get(query, "error_description");
    var code := Get(query, "code");
    if Truthy(error) then
      CallbackResult(LoginError(origin, if Truthy(description) then description.value else error.value), None)
    else if Truthy(code) then
      if exchangeError.None? then
        CallbackResult(RedirectBase(origin, env, forwardedHost) + NextPath(query), code)
      else
        CallbackResult(LoginError(origin, exchangeError.value), code)
    else
      CallbackResult(origin + "/login?error=" + CouldNotAuthenticate, None)
  }

  /** A provider error wins over a code: no exchange, and the description is preferred. */
  lemma ErrorWinsOverCode(query: Params, origin: string, env: Env, fh: Option<string>, ex: Option<string>)
    requires Truthy(Get(query, "error"))
    ensures var r := HandleCallback(query, origin, env, fh, ex);
      && r.exchanged.None?
      && (Truthy(Get(query, "error_description")) ==> r.redirect == LoginError(origin, Get(query, "error_description").value))
      && (!Truthy(Get(query, "error_description")) ==> r.redirect == LoginError(origin, Get(query, "error").value))
  {
  }

  /** After a successful exchange the redirect is the base followed by `next`, verbatim. */
  lemma ExchangedRedirect(query: Params, origin: string, env: Env, fh: Option<string>)
    requires !Truthy(Get(query, "error")) && Truthy(Get(query, "code"))
    ensures HandleCallback(query, origin, env, fh, None).redirect == RedirectBase(origin, env, fh) + NextPath(query)
    ensures Get(query, "next") == Some("") ==> HandleCallback(query, origin, env, fh, None).redirect == RedirectBase(origin, env, fh)
  {
  }

  /** A failed exchange reports its own message on the login page. */
  lemma FailedExchange(query: Params, origin: string, env: Env, fh: Option<string>, message: string)
    requires !Truthy(Get(query, "error")) && Truthy(Get(query, "code"))
    ensures HandleCallback(query, origin, env, fh, Some(message)).redirect == LoginError(origin, message)
  {
  }

  /** With neither a code nor an error the redirect is the fixed login URL. */
  lemma NothingToDo(query: Params, origin: string, env: Env, fh: Option<string>, ex: Option<string>)
    requires !Truthy(Get(query, "error")) && !Truthy(Get(query, "code"))
    ensures HandleCallback(query, origin, env, fh, ex).exchanged.None?
    ensures HandleCallback(query, origin, env, fh, ex).redirect == origin + "/login?error=" + CouldNotAuthenticate
  {
  }

  /* ---------- where a redirect lands ---------- */

  /** What follows the first "://" of a URL, if it has one. */
  function AfterScheme(url: string): (rest: Option<string>)
    ensures rest.Some? ==> |rest.value| <= |url| - 3
  {
    if |url| < 3 then None
    else if url[..3] == "://" then Some(url[3..])
    else AfterScheme(url[1..])
  }

  predicate IsAuthorityEnd(c: char) {
    c == '/' || c == '?' || c == '#' || c == '\\'
  }

  /** The text before the first character that ends an authority. */
  function UntilAuthorityEnd(s: string): (r: string)
    ensures IsPrefix(r, s)
  {
    if s == [] || IsAuthorityEnd(s[0]) then [] else [s[0]] + UntilAuthorityEnd(s[1..])
  }

  /** The authority of a URL (user information, host and port). */
  function Authority(url: string): string {
    var rest := AfterScheme(url);
    if rest.Some? then UntilAuthorityEnd(rest.value) else ""
  }

  /** The host a browser goes to: the authority after its last '@'. */
  function Host(url: string): string {
    var a := Authority(url);
    AfterLastAt(a)
  }

  function AfterLastAt(s: string): (r: string)
    ensures '@' !in r
  {
    if s == [] then []
    else if s[|s| - 1] == '@' then []
    else AfterLastAt(s[..|s| - 1]) + [s[|s| - 1]]
  }

  /** A scheme without ':' is followed by the rest of the URL. */
  lemma {:induction false} AfterSchemeOf(scheme: string, rest: string)
    requires ':' !in scheme
    ensures AfterScheme(scheme + "://" + rest) == Some(rest)
  {
    var url := scheme + "://" + rest;
    if scheme == [] {
      assert url[..3] == "://" && url[3..] == rest;
    } else {
      assert url[..3] != "://" by { assert url[0] == scheme[0]; }
      assert url[1..] == scheme[1..] + "://" + rest;
      AfterSchemeOf(scheme[1..], rest);
    }
  }

  lemma {:induction false} AfterSchemeAppend(a: string, b: string)
    requires AfterScheme(a).Some?
    ensures AfterScheme(a + b) == Some(AfterScheme(a).value + b)
  {
    assert (a + b)[..3] == a[..3];
    if a[..3] != "://" {
      assert (a + b)[1..] == a[1..] + b;
      AfterSchemeAppend(a[1..], b);
    } else {
      assert (a + b)[3..] == a[3..] + b;
    }
  }

  lemma {:induction false} UntilAuthorityEndAppend(a: string, b: string)
    requires b != [] && IsAuthorityEnd(b[0])
    ensures UntilAuthorityEnd(a + b) == UntilAuthorityEnd(a)
  {
    if a == [] {
      assert a + b == b;
    } else if !IsAuthorityEnd(a[0]) {
      assert (a + b)[1..] == a[1..] + b;
      UntilAuthorityEndAppend(a[1..], b);
    }
  }

  /** Appending text that starts with '/' to a URL keeps its authority. */
  lemma AppendPathKeepsAuthority(base: string, path: string)
    requires AfterScheme(base).Some?
    requires path != [] && path[0] == '/'
    ensures Authority(base + path) == Authority(base)
  {
    AfterSchemeAppend(base, path);
    UntilAuthorityEndAppend(AfterScheme(base).value, path);
  }

  lemma {:induction false} NoAtKept(s: string)
    requires '@' !in s
    ensures AfterLastAt(s) == s
  {
    if s != [] {
      NoAtKept(s[..|s| - 1]);
    }
  }

  lemma {:induction false} AfterLastAtOf(user: string, host: string)
    requires '@' !in host
    ensures AfterLastAt(user + "@" + host) == host
  {
    var s := user + "@" + host;
    if host == [] {
    } else {
      assert s[..|s| - 1] == user + "@" + host[..|host| - 1];
      AfterLastAtOf(user, host[..|host| - 1]);
    }
  }

  lemma {:induction false} NoEndKept(s: string)
    requires forall i :: 0 <= i < |s| ==> !IsAuthorityEnd(s[i])
    ensures UntilAuthorityEnd(s) == s
  {
    if s != [] {
      NoEndKept(s[1..]);
    }
  }

  /** The host of "https://" followed by an authority with no delimiter. */
  lemma HostOf(authority: string, user: string, host: string)
    requires forall i :: 0 <= i < |authority| ==> !IsAuthorityEnd(authority[i])
    requires authority == user + "@" + host || (authority == host && user == [])
    requires '@' !in host
    ensures Host("https://" + authority) == host
  {
    assert "https://" + authority == "https" + "://" + authority;
    AfterSchemeOf("https", authority);
    NoEndKept(authority);
    assert Authority("https://" + authority) == authority;
    if authority == user + "@" + host {
      AfterLastAtOf(user, host);
    } else {
      NoAtKept(host);
    }
  }

  lemma OpenRedirectUrl()
    ensures HandleCallback([("code", "c"), ("next", "@evil.example")], "https://app.example", Env(false, None), None, None).redirect
      == "https://app.example@evil.example"
  {
    var query := [("code", "c"), ("next", "@evil.example")];
    assert "code" != "error" && "next" != "error" && "next" != "code";
    assert Get(query[1..], "next") == Some("@evil.example");
    assert Get(query, "error") == None;
    assert Get(query, "code") == Some("c");
    ExchangedRedirect(query, "https://app.example", Env(false, None), None);
  }

  lemma EvilHost()
    ensures Host("https://app.example@evil.example") == "evil.example"
  {
    var user, host := "app.example", "evil.example";
    var authority := user + "@" + host;
    assert "https://app.example@evil.example" == "https://" + authority;
    assert forall i :: 0 <= i < |authority| ==> !IsAuthorityEnd(authority[i]);
    HostOf(authority, user, host);
  }

  lemma OriginHost()
    ensures Host("https://app.example") == "app.example"
  {
    var authority := "app.example";
    assert "https://app.example" == "https://" + authority;
    HostOf(authority, [], authority);
  }

  /**
   * As written, `next` is appended verbatim, so a `next` that does not start with
   * '/' continues the authority: "@evil.example" sends the browser to another host.
   */
  lemma OpenRedirect()
    ensures var r := HandleCallback([("code", "c"), ("next", "@evil.example")], "https://app.example", Env(false, None), None, None);
      && r.redirect == "https://app.example@evil.example"
      && Host(r.redirect) == "evil.example"
      && Host("https://app.example") == "app.example"
  {
    OpenRedirectUrl();
    EvilHost();
    OriginHost();
  }

  /** `next` only when it is a path on this site, otherwise the default. */
  function SafeNextPath(query: Params): (next: string)
    ensures next != [] && next[0] == '/'
    ensures var n := NextPath(query); n != [] && n[0] == '/' ==> next == n
  {
    var n := NextPath(query);
    if n != [] && n[0] == '/' then n else DefaultNext
  }

  /** `GET` with `next` restricted to paths on this site. */
  function HandleCallbackSafe(query: Params, origin: string, env: Env, forwardedHost: Option<string>,
                              exchangeError: Option<string>): (r: CallbackResult)
    ensures r.exchanged == HandleCallback(query, origin, env, forwardedHost, exchangeError).exchanged
  {
    if !Truthy(Get(query, "error")) && Truthy(Get(query, "code")) && exchangeError.None? then
      CallbackResult(RedirectBase(origin, env, forwardedHost) + SafeNextPath(query), Get(query, "code"))
    else
      HandleCallback(query, origin, env, forwardedHost, exchangeError)
  }

  /** The corrected route never leaves the redirect base's authority, and agrees with the original on paths. */
  lemma SafeCallbackKeepsHost(query: Params, origin: string, env: Env, fh: Option<string>)
    requires !Truthy(Get(query, "error")) && Truthy(Get(query, "code"))
    requires AfterScheme(RedirectBase(origin, env, fh)).Some?
    ensures Authority(HandleCallbackSafe(query, origin, env, fh, None).redirect) == Authority(RedirectBase(origin, env, fh))
    ensures var n := NextPath(query); n != [] && n[0] == '/' ==>
      HandleCallbackSafe(query, origin, env, fh, None) == HandleCallback(query, origin, env, fh, None)
  {
    AppendPathKeepsAuthority(RedirectBase(origin, env, fh), SafeNextPath(query));
  }
}
