/**
 * Reverse-proxy routing: the rule registry (`reversepath_add`), the prefix
 * lookup (`reversepath_get`) and the URL rewrite (`reverse_rewrite_url`).
 *
 * The global list `config.reversepath_list` is the `rules` field of a
 * `Registry` object, index 0 being the head of the list; a pointer into the
 * list is an index into `rules`.
 */
module ReverseProxy {
  import opened Wrappers
  import opened Strings

  /** REVERSE_COOKIE, the name of the magical tracking cookie. */
  const ReverseCookie: string := "yummy_magical_cookie"

  /** One `struct reversepath`: a path prefix and the backend URL it maps to. */
  datatype Rule = Rule(path: string, url: string)

  /** `strstr(url, "://") != NULL` */
  predicate HasScheme(url: string) {
    Find(url, "://").Some?
  }

  /** What every stored rule satisfies. */
  predicate WellFormed(r: Rule) {
    StartsWithSlash(r.path) && HasScheme(r.url)
  }

  predicate AllWellFormed(rules: seq<Rule>) {
    forall i :: 0 <= i < |rules| ==> WellFormed(rules[i])
  }

  // ---------------------------------------------------------------------
  // Registration
  // ---------------------------------------------------------------------

  /** The outcome of `reversepath_add`: which diagnostic it logs. */
  datatype AddStatus = Added | MissingUrl | NotAUrl | PathWithoutSlash

  /** The three validity checks of `reversepath_add`, in source order. */
  function Validate(path: Option<string>, url: Option<string>): (st: AddStatus)
    ensures st == MissingUrl <==> url.None?
    ensures st == NotAUrl <==> url.Some? && !HasScheme(url.value)
    ensures st == PathWithoutSlash <==>
      url.Some? && HasScheme(url.value) && path.Some? && !StartsWithSlash(path.value)
  {
    if url.None? then MissingUrl
    else if !HasScheme(url.value) then NotAUrl
    else if path.Some? && !StartsWithSlash(path.value) then PathWithoutSlash
    else Added
  }

  /** The rule list after `reversepath_add(path, url)`. */
  function Register(rules: seq<Rule>, path: Option<string>, url: Option<string>): (r: seq<Rule>)
    ensures |r| == |rules| + (if Validate(path, url) == Added then 1 else 0)
    ensures r[|r| - |rules|..] == rules
  {
    if Validate(path, url) == Added then [Rule(path.GetOr("/"), url.value)] + rules
    else rules
  }

  // ---------------------------------------------------------------------
  // Lookup
  // ---------------------------------------------------------------------

  /** The rule applies to `url`: its path is a byte-wise prefix of `url`. */
  predicate Matches(r: Rule, url: string) {
    r.path <= url
  }

  /** The index of the first rule, in list order, whose path is a prefix of `url`. */
  function FirstMatch(rules: seq<Rule>, url: string): (r: Option<nat>)
    ensures r.Some? ==> r.value < |rules| && Matches(rules[r.value], url)
    ensures r.Some? ==> forall j :: 0 <= j < r.value ==> !Matches(rules[j], url)
    ensures r.None? <==> forall j :: 0 <= j < |rules| ==> !Matches(rules[j], url)
  {
    if |rules| == 0 then None
    else if Matches(rules[0], url) then Some(0)
    else
      match FirstMatch(rules[1..], url)
      case None => None
      case Some(k) => Some(k + 1)
  }

  /** The process-wide reverse-path list. */
  class Registry {
    var rules: seq<Rule>

    ghost predicate Valid()
      reads this
    {
      AllWellFormed(rules)
    }

    constructor ()
      ensures Valid() && rules == []
    {
      rules := [];
    }

    /** `reversepath_add`: validate, then push the new rule onto the front. */
    method Add(path: Option<string>, url: Option<string>) returns (status: AddStatus)
      requires Valid()
      modifies this
      ensures Valid()
      ensures status == Validate(path, url)
      ensures rules == Register(old(rules), path, url)
    {
      if url.None? {
        return MissingUrl;
      }
      if Find(url.value, "://").None? {
        return NotAUrl;
      }
      if path.Some? && (|path.value| == 0 || path.value[0] != '/') {
        return PathWithoutSlash;
      }
      var p := if path.None? then "/" else path.value;
      rules := [Rule(p, url.value)] + rules;
      status := Added;
    }

    /**
     * `reversepath_get`: walk the list from its head and return the first
     * rule for which `strstr(url, path) == url`.
     */
    method Get(url: string) returns (r: Option<nat>)
      ensures r.Some? ==> r.value < |rules| && Matches(rules[r.value], url)
      ensures r.Some? ==> forall j :: 0 <= j < r.value ==> !Matches(rules[j], url)
      ensures r.None? <==> forall j :: 0 <= j < |rules| ==> !Matches(rules[j], url)
      ensures r == FirstMatch(rules, url)
    {
      var i := 0;
      while i < |rules|
        invariant i <= |rules|
        invariant forall j :: 0 <= j < i ==> !Matches(rules[j], url)
      {
        FoundAtStartIffPrefix(url, rules[i].path);
        if Find(url, rules[i].path) == Some(0) {
          return Some(i);
        }
        i := i + 1;
      }
      return None;
    }
  }

  // ---------------------------------------------------------------------
  // Rewriting
  // ---------------------------------------------------------------------

  /** The configuration flags the rewrite reads. */
  datatype Config = Config(reverseonly: bool, reversemagic: bool)

  /**
   * The key the tracking cookie carries: everything after the first
   * occurrence of REVERSE_COOKIE "=" in the cookie header value.
   */
  function CookieKey(cookie: string): (key: Option<string>)
    ensures key.None? <==> Find(cookie, ReverseCookie + "=").None?
    ensures key.Some? ==> |key.value| + |ReverseCookie| + 1 <= |cookie|
    ensures key.Some? ==> cookie[|cookie| - |key.value|..] == key.value
  {
    match Find(cookie, ReverseCookie + "=")
    case None => None
    case Some(p) => Some(cookie[p + |ReverseCookie| + 1..])
  }

  /**
   * The decision `reverse_rewrite_url` takes: the rewritten URL, the rule it
   * came from, and whether the request is refused in reverse-only mode.
   */
  datatype Outcome = Outcome(rewritten: Option<string>, matched: Option<Rule>, denied: bool)

  function Miss(cfg: Config): Outcome {
    Outcome(None, None, cfg.reverseonly)
  }

  /**
   * The routing decision for request `url`, given the rule list, the flags
   * and the request's `cookie` header (None when it has none).
   */
  function Rewrite(rules: seq<Rule>, cfg: Config, cookie: Option<string>, url: string): (o: Outcome)
    ensures o.denied <==> cfg.reverseonly && o.rewritten.None?
    ensures o.rewritten.Some? <==> o.matched.Some?
    ensures o.matched.Some? ==> StartsWithSlash(url) && o.matched.value in rules
    ensures o.rewritten.Some? ==> o.matched.value.url <= o.rewritten.value
    ensures o.rewritten.Some? ==> |o.rewritten.value| <= |url| + |o.matched.value.url|
  {
    if !StartsWithSlash(url) then Miss(cfg)
    else
      match FirstMatch(rules, url)
      case Some(k) =>
        Outcome(Some(rules[k].url + url[|rules[k].path|..]), Some(rules[k]), false)
      case None =>
        if cfg.reversemagic && cookie.Some? then
          match CookieKey(cookie.value)
          case None => Miss(cfg)
          case Some(key) =>
            match FirstMatch(rules, key)
            case None => Miss(cfg)
            case Some(k) => Outcome(Some(rules[k].url + url[1..]), Some(rules[k]), false)
        else Miss(cfg)
  }

  /** What happens to `connptr->reversepath` at the end of the rewrite. */
  datatype Store = Keep | Save(path: string) | Undefined

  /**
   * The final store as the source writes it: whenever reversemagic is set
   * and the request was not refused, `reverse->path` is read, although
   * `reverse` is NULL after a miss and uninitialised for a URL that does
   * not start with '/'. `Undefined` stands for that read.
   */
  function StoreAsWritten(cfg: Config, o: Outcome): (s: Store)
    ensures s == Undefined <==> !o.denied && cfg.reversemagic && o.matched.None?
    ensures s.Save? ==> o.matched.Some? && s.path == o.matched.value.path
    ensures s == Keep <==> o.denied || !cfg.reversemagic
  {
    if o.denied || !cfg.reversemagic then Keep
    else if o.matched.Some? then Save(o.matched.value.path)
    else Undefined
  }

  /** The store guarded by a match, as intended. */
  function StoreGuarded(cfg: Config, o: Outcome): (s: Store)
    ensures s != Undefined
    ensures s.Save? <==> !o.denied && cfg.reversemagic && o.matched.Some?
    ensures s.Save? ==> s.path == o.matched.value.path
    ensures StoreAsWritten(cfg, o) != Undefined ==> s == StoreAsWritten(cfg, o)
  {
    if !o.denied && cfg.reversemagic && o.matched.Some? then Save(o.matched.value.path) else Keep
  }

  /** One call of `indicate_http_error`, as it is recorded on the connection. */
  datatype HttpError = HttpError(status: int, reason: string, details: seq<(string, string)>)

  function BadRequest(url: string): HttpError {
    HttpError(400, "Bad Request", [("detail", "Request has an invalid URL"), ("url", url)])
  }

  /** The routing part of `struct conn_s`. */
  class Conn {
    /** `connptr->reversepath`: the path whose tracking cookie is to be set. */
    var reversepath: Option<string>
    /** The error responses indicated on this connection, oldest first. */
    var errors: seq<HttpError>

    constructor ()
      ensures reversepath == None && errors == []
    {
      reversepath := None;
      errors := [];
    }
  }

  /**
   * `reverse_rewrite_url`, with the final store guarded by a match. Returns
   * the rewritten URL, or None (NULL) for "not rewritten".
   */
  method RewriteUrl(conn: Conn, reg: Registry, cfg: Config, cookie: Option<string>, url: string)
    returns (r: Option<string>)
    modifies conn
    ensures var o := Rewrite(reg.rules, cfg, cookie, url);
      && r == o.rewritten
      && conn.errors == old(conn.errors) + (if o.denied then [BadRequest(url)] else [])
      && conn.reversepath == (match StoreGuarded(cfg, o)
                              case Save(p) => Some(p)
                              case _ => old(conn.reversepath))
  {
    var rewrite: Option<string> := None;
    var reverse: Option<nat> := None;
    if |url| > 0 && url[0] == '/' {
      reverse := reg.Get(url);
      if reverse.Some? {
        var rule := reg.rules[reverse.value];
        rewrite := Some(rule.url + url[|rule.path|..]);
      } else if cfg.reversemagic && cookie.Some? {
        var at := Find(cookie.value, ReverseCookie + "=");
        if at.Some? {
          reverse := reg.Get(cookie.value[at.value + |ReverseCookie| + 1..]);
          if reverse.Some? {
            var rule := reg.rules[reverse.value];
            rewrite := Some(rule.url + url[1..]);
          }
        }
      }
    }

    if cfg.reverseonly && rewrite.None? {
      conn.errors := conn.errors + [BadRequest(url)];
      return None;
    }

    if cfg.reversemagic && reverse.Some? {
      conn.reversepath := Some(reg.rules[reverse.value].path);
    }
    return rewrite;
  }

  // ---------------------------------------------------------------------
  // Properties of registration
  // ---------------------------------------------------------------------

  /** A rejected rule leaves the list as it was, in each of the three cases. */
  lemma RegisterRejects(rules: seq<Rule>, path: Option<string>, url: Option<string>)
    requires url.None? || !HasScheme(url.value) || (path.Some? && !StartsWithSlash(path.value))
    ensures Validate(path, url) != Added
    ensures Register(rules, path, url) == rules
  {
  }

  /**
   * A registration is accepted exactly when all three checks pass, and then
   * it prepends one rule (path defaulting to "/", url verbatim) to the
   * unchanged rest.
   */
  lemma RegisterPrepends(rules: seq<Rule>, path: Option<string>, url: Option<string>)
    ensures Validate(path, url) == Added <==>
      url.Some? && HasScheme(url.value) && (path.None? || StartsWithSlash(path.value))
    ensures Validate(path, url) == Added ==>
      var r := Register(rules, path, url);
      && |r| == |rules| + 1
      && r[1..] == rules
      && r[0].url == url.value
      && r[0].path == (if path.None? then "/" else path.value)
    ensures Validate(path, url) != Added ==> |Register(rules, path, url)| == |rules|
  {
  }

  /** Every registration keeps every stored rule well formed. */
  lemma RegisterKeepsWellFormed(rules: seq<Rule>, path: Option<string>, url: Option<string>)
    requires AllWellFormed(rules)
    ensures AllWellFormed(Register(rules, path, url))
  {
    var r := Register(rules, path, url);
    if Validate(path, url) == Added {
      assert WellFormed(r[0]);
      forall i | 0 < i < |r| ensures WellFormed(r[i]) {
        assert r[i] == rules[i - 1];
      }
    }
  }

  /**
   * The newest rule is tried first: after a successful registration, a URL
   * its path prefixes finds it, and any other URL finds what it found
   * before, one place further down the list.
   */
  lemma NewestRuleFirst(rules: seq<Rule>, path: Option<string>, url: Option<string>, request: string)
    requires Validate(path, url) == Added
    ensures path.GetOr("/") <= request ==> FirstMatch(Register(rules, path, url), request) == Some(0)
    ensures !(path.GetOr("/") <= request) ==>
      FirstMatch(Register(rules, path, url), request) ==
        (match FirstMatch(rules, request) case None => None case Some(k) => Some(k + 1))
  {
    var r := Register(rules, path, url);
    assert r[1..] == rules;
  }

  /** A later, longer rule shadows an earlier, shorter one. */
  lemma ShadowingExample()
    ensures
      var rules := Register(Register([], Some("/a"), Some("http://a/")), Some("/ab"), Some("http://b/"));
      && |rules| == 2
      && FirstMatch(rules, "/ab/c") == Some(0)
      && rules[0] == Rule("/ab", "http://b/")
  {
    assert OccursAt("http://a/", "://", 4);
    assert OccursAt("http://b/", "://", 4);
    var rules := Register(Register([], Some("/a"), Some("http://a/")), Some("/ab"), Some("http://b/"));
    assert Matches(rules[0], "/ab/c");
  }

  // ---------------------------------------------------------------------
  // Properties of rewriting
  // ---------------------------------------------------------------------

  /** The cookie key is the text after the first REVERSE_COOKIE "=". */
  lemma CookieKeyIsAfterFirstOccurrence(cookie: string)
    ensures CookieKey(cookie).Some? <==> exists p :: 0 <= p <= |cookie| && OccursAt(cookie, ReverseCookie + "=", p)
    ensures CookieKey(cookie).Some? ==>
      var p := Find(cookie, ReverseCookie + "=").value;
      && cookie == cookie[..p] + ReverseCookie + "=" + CookieKey(cookie).value
      && forall j :: 0 <= j < p ==> !OccursAt(cookie, ReverseCookie + "=", j)
  {
    var pat := ReverseCookie + "=";
    match Find(cookie, pat)
    case None =>
    case Some(p) =>
      assert OccursAt(cookie, pat, p);
      assert cookie == cookie[..p] + cookie[p..p + |pat|] + cookie[p + |pat|..];
  }

  /**
   * A direct match strips the whole matched prefix: for the first rule
   * (newest first) whose path prefixes the URL, the result is the rule's
   * URL followed by the rest of the request URL.
   */
  lemma DirectMatchRewrite(rules: seq<Rule>, cfg: Config, cookie: Option<string>, url: string, k: nat)
    requires StartsWithSlash(url)
    requires k < |rules| && Matches(rules[k], url)
    requires forall j :: 0 <= j < k ==> !Matches(rules[j], url)
    ensures Rewrite(rules, cfg, cookie, url) ==
      Outcome(Some(rules[k].url + url[|rules[k].path|..]), Some(rules[k]), false)
  {
    var m := FirstMatch(rules, url);
    assert m.Some? && m.value == k;
  }

  /**
   * The cookie fallback: with no direct match, reversemagic set and a
   * cookie whose key is prefixed by rule k's path (k the first such), the
   * result is rule k's URL followed by the request URL less one byte.
   */
  lemma CookieFallbackRewrite(rules: seq<Rule>, cfg: Config, cookie: string, url: string, key: string, k: nat)
    requires StartsWithSlash(url)
    requires forall j :: 0 <= j < |rules| ==> !Matches(rules[j], url)
    requires cfg.reversemagic
    requires CookieKey(cookie) == Some(key)
    requires k < |rules| && Matches(rules[k], key)
    requires forall j :: 0 <= j < k ==> !Matches(rules[j], key)
    ensures Rewrite(rules, cfg, Some(cookie), url) ==
      Outcome(Some(rules[k].url + url[1..]), Some(rules[k]), false)
  {
    var m := FirstMatch(rules, key);
    assert m.Some? && m.value == k;
  }

  /**
   * The cookie is consulted only as a fallback: a rewrite without a direct
   * match needs reversemagic and a cookie header, and its result is a rule's
   * URL followed by the request URL less its leading '/'.
   */
  lemma CookieOnlyAsFallback(rules: seq<Rule>, cfg: Config, cookie: Option<string>, url: string)
    requires forall j :: 0 <= j < |rules| ==> !Matches(rules[j], url)
    ensures var o := Rewrite(rules, cfg, cookie, url);
      o.rewritten.Some? ==>
        && cfg.reversemagic && cookie.Some? && CookieKey(cookie.value).Some?
        && o.rewritten.value == o.matched.value.url + url[1..]
    ensures var o := Rewrite(rules, cfg, cookie, url);
      o.rewritten.Some? ==>
        && CookieKey(cookie.value).Some?
        && FirstMatch(rules, CookieKey(cookie.value).value).Some?
        && o.matched.value == rules[FirstMatch(rules, CookieKey(cookie.value).value).value]
    ensures cfg.reversemagic && cookie.Some? && CookieKey(cookie.value).Some?
            && FirstMatch(rules, CookieKey(cookie.value).value).None? ==>
      Rewrite(rules, cfg, cookie, url) == Miss(cfg)
    ensures !cfg.reversemagic || cookie.None? ==>
      Rewrite(rules, cfg, cookie, url) == Miss(cfg)
  {
  }

  /** A URL that does not start with '/' is never rewritten. */
  lemma RelativeOnly(rules: seq<Rule>, cfg: Config, cookie: Option<string>, url: string)
    requires !StartsWithSlash(url)
    ensures Rewrite(rules, cfg, cookie, url) == Outcome(None, None, cfg.reverseonly)
  {
  }

  /**
   * With nothing rewritten, reverse-only mode refuses the request and
   * otherwise the request passes through unrefused.
   */
  lemma RefuseOrPassThrough(rules: seq<Rule>, cfg: Config, cookie: Option<string>, url: string)
    requires Rewrite(rules, cfg, cookie, url).rewritten.None?
    ensures Rewrite(rules, cfg, cookie, url) == Outcome(None, None, cfg.reverseonly)
  {
  }

  /**
   * Only the matched prefix is removed and nothing is normalised:
   * `/x -> http://b/` rewrites `/x/y` to `http://b//y`, while
   * `/x/ -> http://b/` rewrites it to `http://b/y`.
   */
  lemma PrefixStripExample(cfg: Config, cookie: Option<string>)
    ensures Rewrite([Rule("/x", "http://b/")], cfg, cookie, "/x/y").rewritten == Some("http://b//y")
    ensures Rewrite([Rule("/x/", "http://b/")], cfg, cookie, "/x/y").rewritten == Some("http://b/y")
  {
    assert Matches(Rule("/x", "http://b/"), "/x/y");
    assert "http://b/" + "/x/y"[2..] == "http://b//y";
    assert Matches(Rule("/x/", "http://b/"), "/x/y");
    assert "http://b/" + "/x/y"[3..] == "http://b/y";
  }

  /** Reverse-only mode with no rules refuses every request path. */
  lemma ReverseOnlyEmptyExample(cookie: Option<string>, reversemagic: bool, url: string)
    ensures Rewrite([], Config(true, reversemagic), cookie, url).denied
  {
  }

  /**
   * The cookie fallback is reachable: `/x -> http://b/`, a request path
   * that matches no rule, and a cookie naming `/x`.
   */
  lemma CookieExample(url: string)
    requires StartsWithSlash(url) && !("/x" <= url)
    ensures Rewrite([Rule("/x", "http://b/")], Config(false, true), Some(ReverseCookie + "=/x"), url).rewritten
      == Some("http://b/" + url[1..])
  {
    var cookie := ReverseCookie + "=/x";
    assert OccursAt(cookie, ReverseCookie + "=", 0);
    assert Find(cookie, ReverseCookie + "=") == Some(0);
    assert cookie[|ReverseCookie| + 1..] == "/x";
    assert Matches(Rule("/x", "http://b/"), "/x");
  }

  /**
   * The source's final store reads a NULL `reverse` when reversemagic is on,
   * reverse-only mode is off and no rule matches.
   */
  lemma AsWrittenDereferencesNull()
    ensures StoreAsWritten(Config(false, true), Rewrite([], Config(false, true), None, "/x")) == Undefined
  {
  }

  /**
   * Registration only stores URLs containing "://", so every rewrite is an
   * absolute URL: the stored url is a prefix of the result.
   */
  lemma RewrittenIsAbsolute(rules: seq<Rule>, cfg: Config, cookie: Option<string>, url: string)
    requires AllWellFormed(rules)
    ensures var o := Rewrite(rules, cfg, cookie, url);
      o.rewritten.Some? ==> HasScheme(o.rewritten.value)
  {
    var o := Rewrite(rules, cfg, cookie, url);
    if o.rewritten.Some? {
      var u := o.matched.value.url;
      var k :| 0 <= k < |rules| && rules[k] == o.matched.value;
      assert WellFormed(rules[k]);
      var p := Find(u, "://").value;
      assert OccursAt(u, "://", p);
      assert o.rewritten.value[p..p + 3] == u[p..p + 3];
      assert OccursAt(o.rewritten.value, "://", p);
    }
  }

  /** The guarded store records exactly the winning rule's path. */
  lemma GuardedStoreRecordsWinner(rules: seq<Rule>, cfg: Config, cookie: Option<string>, url: string)
    requires cfg.reversemagic
    ensures var o := Rewrite(rules, cfg, cookie, url);
      o.rewritten.Some? ==> StoreGuarded(cfg, o) == Save(o.matched.value.path) && o.matched.value in rules
    ensures var o := Rewrite(rules, cfg, cookie, url);
      o.rewritten.None? ==> StoreGuarded(cfg, o) == Keep
  {
  }
}
