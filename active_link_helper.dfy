/** The `ActiveLinkHelper` revision: a link wraps its label in a span, the
    condition is `:self`, `:self_only`, a Boolean or a Hash of controllers
    and actions, and the active class is appended to the caller's options
    in place. */
module ActiveLinkHelper {
  import opened Ruby
  import opened Regex
  import opened Rails

  /** The text after the first `c` of `s`, which must contain one. */
  function After(s: string, c: char): (r: string)
    requires c in s
    ensures s == Before(s, c) + [c] + r
  {
    var b := Before(s, c);
    assert s[..|b|] == b;
    s[|b| + 1..]
  }

  /** The length of the `http://` or `https://` a link starts with, or 0. */
  function SchemeLength(s: string): nat {
    if StartsWith(s, "http://") then 7 else if StartsWith(s, "https://") then 8 else 0
  }

  /** `link.gsub!(/^(https?:\/\/).*?\//, '/')`: the scheme and the host, up
      to the first `/` after the scheme, become a single `/`. */
  function StripHost(link: string): string {
    var n := SchemeLength(link);
    if n == 0 || '/' !in link[n..] then link else "/" + After(link[n..], '/')
  }

  /** A Hash condition: some key is the current controller and its actions,
      flattened, include the current action. */
  predicate RouteListed(env: Env, routes: Entries) {
    exists i :: 0 <= i < |routes| && routes[i].0 == Controller(env) && Action(env) in Flat(routes[i].1)
  }

  /** `is_active_link?(link, value)`.  The path conditions use the link
      without its host and without its query string; any other value leaves
      the regular expression unset, which is false. */
  predicate IsActive(env: Env, link: string, value: Value) {
    var path := ToS(SplitFirst(StripHost(link), '?'));
    match value
    case Sym(n) =>
      if n == "self" then PrefixMatch(SubtreePattern(path), env.fullpath)
      else if n == "self_only" then FullMatch(PagePattern(path), env.fullpath)
      else false
    case Bool(t) => t
    case Hash(routes) => RouteListed(env, routes)
    case _ => false
  }

  /** `active_class(link, value)` */
  function ActiveClass(env: Env, link: string, value: Value): string {
    if IsActive(env, link, value) then " active" else ""
  }

  /** `options[:class] ||= ''` */
  function DefaultClass(options: Entries): Entries {
    if Truthy(Get(options, Sym("class"))) then options else Set(options, Sym("class"), Str(""))
  }

  /** `options[:class] += css`, then the class is deleted if it is empty. */
  function AddClass(options: Entries, css: string): Outcome<Entries> {
    var h := DefaultClass(options);
    match Append(Get(h, Sym("class")), css)
    case Raise(e) => Raise(e)
    case Ok(cls) =>
      var h2 := Set(h, Sym("class"), cls);
      if cls == Str("") then Ok(Delete(h2, Sym("class"))) else Ok(h2)
  }

  /** The caller's options once the helper is done with them: the default
      class stays behind when the append raises. */
  function OptionsAfter(options: Entries, css: string): Entries {
    match AddClass(options, css)
    case Ok(h) => h
    case Raise(_) => DefaultClass(options)
  }

  /** `active_link(name, link, value, options)` as written: the link the
      anchor points to is the one `is_active_link?` rewrote. */
  function Render(env: Env, name: string, link: string, value: Value, options: Entries): Outcome<Markup> {
    match AddClass(options, ActiveClass(env, link, value))
    case Raise(e) => Raise(e)
    case Ok(h) => Ok(Link(Span(Text(name), []), StripHost(link), h))
  }

  /** `active_link` with the host kept in the anchor: stripping the host is
      there only to compare the link with the request. */
  function IntendedRender(env: Env, name: string, link: string, value: Value, options: Entries): Outcome<Markup> {
    match AddClass(options, ActiveClass(env, link, value))
    case Raise(e) => Raise(e)
    case Ok(h) => Ok(Link(Span(Text(name), []), link, h))
  }

  /** `is_active_link?(link, value)`: rewrites the caller's `link` in place,
      then matches its path, or walks the Hash until a route matches. */
  method IsActiveLink(env: Env, link: StringObject, value: Value) returns (r: bool)
    modifies link
    ensures link.value == StripHost(old(link.value))
    ensures r == IsActive(env, old(link.value), value)
  {
    link.value := StripHost(link.value);
    var path := ToS(SplitFirst(link.value, '?'));
    if value == Sym("self") {
      return PrefixMatch(SubtreePattern(path), env.fullpath);
    } else if value == Sym("self_only") {
      return FullMatch(PagePattern(path), env.fullpath);
    } else if value.Bool? {
      return value.truth;
    } else if value.Hash? {
      var routes := value.entries;
      var i := 0;
      while i < |routes|
        invariant 0 <= i <= |routes|
        invariant forall j :: 0 <= j < i ==> !(routes[j].0 == Controller(env) && Action(env) in Flat(routes[j].1))
      {
        if routes[i].0 == Controller(env) && Action(env) in Flat(routes[i].1) {
          return true;
        }
        i := i + 1;
      }
      return false;
    }
    return false;
  }

  /** `active_link(name, link, value, options)`: changes the caller's
      `link` and `options` in place, even when the append raises. */
  method ActiveLink(env: Env, name: string, link: StringObject, value: Value, options: HashObject)
    returns (r: Outcome<Markup>)
    modifies link, options
    ensures link.value == StripHost(old(link.value))
    ensures options.entries == OptionsAfter(old(options.entries), ActiveClass(env, old(link.value), value))
    ensures r == Render(env, name, old(link.value), value, old(options.entries))
  {
    if !Truthy(Get(options.entries, Sym("class"))) {
      options.entries := Set(options.entries, Sym("class"), Str(""));
    }
    var active := IsActiveLink(env, link, value);
    var css := if active then " active" else "";
    var added := Append(Get(options.entries, Sym("class")), css);
    if added.Raise? {
      return Raise(added.error);
    }
    options.entries := Set(options.entries, Sym("class"), added.value);
    if added.value == Str("") {
      options.entries := Delete(options.entries, Sym("class"));
    }
    r := Ok(Link(Span(Text(name), []), link.value, options.entries));
  }

  // ---------------------------------------------------------------------
  // What the link rewriting promises

  /** A link with a scheme and a host loses both, keeping the `/` that
      starts its path: `http://example.com/people` becomes `/people`. */
  lemma StripHostMeaning(scheme: string, host: string, rest: string)
    requires scheme == "http://" || scheme == "https://"
    requires '/' !in host
    ensures StripHost(scheme + host + "/" + rest) == "/" + rest
  {
    var s := scheme + host + "/" + rest;
    assert s[..|scheme|] == scheme;
    assert SchemeLength(s) == |scheme| by {
      if scheme == "https://" {
        assert s[4] != "http://"[4];
      }
    }
    assert s[|scheme|..] == host + "/" + rest;
    BeforeAppend(host, "/" + rest, '/');
    assert host + "/" + rest == host + ("/" + rest);
  }

  /** A link without a scheme, or without a `/` after its host, is kept. */
  lemma StripHostKeeps(link: string)
    requires !StartsWith(link, "http://") && !StartsWith(link, "https://")
    ensures StripHost(link) == link
  {
  }

  /** Rewriting a rewritten link changes nothing, so the second call of
      `is_active_link?` on the same link sees what the first one saw. */
  lemma StripHostIdempotent(link: string)
    ensures StripHost(StripHost(link)) == StripHost(link)
  {
    var r := StripHost(link);
    if r != link {
      assert r[0] == '/';
      assert r[..1] != "h";
      assert !StartsWith(r, "http://") by {
        if |r| >= 7 { assert r[..7][0] == '/'; }
      }
      assert !StartsWith(r, "https://") by {
        if |r| >= 8 { assert r[..8][0] == '/'; }
      }
    }
  }

  // ---------------------------------------------------------------------
  // What the matcher promises

  /** `:self` has no end anchor: the request path starts with the link's
      path, with no boundary check, so `/people` is active on `/peoples`. */
  lemma SelfMeaning(env: Env, link: string)
    ensures IsActive(env, link, Sym("self")) <==> StartsWith(env.fullpath, Before(StripHost(link), '?'))
  {
    SplitFirstToS(StripHost(link), '?');
    SubtreePrefixMeaning(Before(StripHost(link), '?'), env.fullpath);
  }

  /** `:self_only` is the link's path, at most one `/` and at most a query
      string. */
  lemma SelfOnlyMeaning(env: Env, link: string)
    ensures var p := Before(StripHost(link), '?');
            var f := env.fullpath;
            IsActive(env, link, Sym("self_only"))
            <==> f == p || f == p + "/" || StartsWith(f, p + "?") || StartsWith(f, p + "/?")
  {
    SplitFirstToS(StripHost(link), '?');
    PagePatternMeaning(Before(StripHost(link), '?'), env.fullpath);
  }

  /** A query string on the link does not matter to the path conditions,
      when the link is relative or has a path after its host. */
  lemma QueryIgnored(env: Env, path: string, query: string, value: Value)
    requires '?' !in path
    requires SchemeLength(path) == 0 || '/' in path[SchemeLength(path)..]
    requires value == Sym("self") || value == Sym("self_only")
    ensures IsActive(env, path + "?" + query, value) <==> IsActive(env, path, value)
  {
    var link := path + "?" + query;
    QueryIgnoredStrip(path, query);
    SplitFirstToS(StripHost(link), '?');
    SplitFirstToS(StripHost(path), '?');
  }

  /** Adding a query string does not change the scheme a link starts with. */
  lemma QuerySchemeLength(path: string, query: string)
    requires '?' !in path
    ensures SchemeLength(path + "?" + query) == SchemeLength(path)
  {
    var link := path + "?" + query;
    assert link[|path|] == '?';
    if |path| >= 8 {
      assert link[..8] == path[..8];
      assert link[..7] == path[..7];
    } else if |path| >= 7 {
      assert link[..7] == path[..7];
    }
  }

  /** When `u` has a `c`, what follows `u` follows its `After` too. */
  lemma AfterPrefix(u: string, w: string, c: char)
    requires c in u
    ensures c in u + w && After(u + w, c) == After(u, c) + w
  {
    BeforePrefix(u, w, c);
    var b := Before(u, c);
    assert (u + w)[|b|] == c;
    assert (u + w)[|b| + 1..] == u[|b| + 1..] + w;
  }

  /** The text after a `c` of `s` is part of `s`, so it has no character
      `s` lacks. */
  lemma AfterWithout(s: string, c: char, d: char)
    requires c in s && d !in s
    ensures d !in After(s, c)
  {
    var b := Before(s, c);
    assert After(s, c) == s[|b| + 1..];
  }

  /** Stripping the host commutes with cutting the query when the query is
      all that follows the path. */
  lemma QueryIgnoredStrip(path: string, query: string)
    requires '?' !in path
    requires SchemeLength(path) == 0 || '/' in path[SchemeLength(path)..]
    ensures Before(StripHost(path + "?" + query), '?') == Before(StripHost(path), '?')
  {
    var link := path + "?" + query;
    assert link == path + ("?" + query);
    QuerySchemeLength(path, query);
    if SchemeLength(path) == 0 {
      BeforeAppend(path, "?" + query, '?');
      BeforeAppend(path, [], '?');
      assert path + [] == path;
    } else {
      QueryAfterHost(path, query);
    }
  }

  /** `QueryIgnoredStrip` for a link with a scheme and a path. */
  lemma QueryAfterHost(path: string, query: string)
    requires '?' !in path
    requires SchemeLength(path) != 0 && '/' in path[SchemeLength(path)..]
    ensures Before(StripHost(path + ("?" + query)), '?') == Before(StripHost(path), '?')
  {
    QuerySchemeLength(path, query);
    assert path + "?" + query == path + ("?" + query);
    StripHostAppend(path, "?" + query);
    var s := StripHost(path);
    BeforeAppend(s, "?" + query, '?');
    BeforeAppend(s, [], '?');
    assert s + [] == s;
  }

  /** Text after a link's path survives the host stripping, which leaves
      no `?` of the path behind. */
  lemma StripHostAppend(path: string, w: string)
    requires '?' !in path
    requires SchemeLength(path) != 0 && '/' in path[SchemeLength(path)..]
    requires SchemeLength(path + w) == SchemeLength(path)
    ensures StripHost(path + w) == StripHost(path) + w
    ensures '?' !in StripHost(path)
  {
    var n := SchemeLength(path);
    var u := path[n..];
    assert (path + w)[n..] == u + w;
    AfterPrefix(u, w, '/');
    AfterWithout(u, '/', '?');
    assert StripHost(path + w) == "/" + (After(u, '/') + w);
  }

  /** Without a value the link is never active: `nil` and any other value
      of no listed kind leave the regular expression unset. */
  lemma NoValueInactive(env: Env, link: string, value: Value)
    requires value.Nil? || value.Str? || value.Int? || value.List? || value.Regexp?
             || (value.Sym? && value.name != "self" && value.name != "self_only")
    ensures !IsActive(env, link, value)
  {
  }

  /** A Hash of one controller: active exactly on its listed actions, given
      one by one or as a (nested) list. */
  lemma SingleRoute(env: Env, link: string, controller: Value, actions: Value)
    ensures IsActive(env, link, Hash([(controller, actions)]))
            <==> Controller(env) == controller && Action(env) in Flat(actions)
  {
    var routes := [(controller, actions)];
    assert routes[0] == (controller, actions);
    assert IsActive(env, link, Hash(routes)) == RouteListed(env, routes);
  }

  /** Adding a route to the Hash keeps every page the Hash matched, and
      adds that route's pages. */
  lemma AddedRoute(env: Env, routes: Entries, controller: Value, actions: Value)
    ensures RouteListed(env, routes + [(controller, actions)])
            <==> RouteListed(env, routes) || (Controller(env) == controller && Action(env) in Flat(actions))
  {
    var more := routes + [(controller, actions)];
    if RouteListed(env, routes) {
      var i :| 0 <= i < |routes| && routes[i].0 == Controller(env) && Action(env) in Flat(routes[i].1);
      assert more[i] == routes[i];
    }
    if Controller(env) == controller && Action(env) in Flat(actions) {
      assert more[|routes|] == (controller, actions);
    }
    if RouteListed(env, more) {
      var i :| 0 <= i < |more| && more[i].0 == Controller(env) && Action(env) in Flat(more[i].1);
      if i < |routes| {
        assert more[i] == routes[i];
      }
    }
  }

  // ---------------------------------------------------------------------
  // What the options promise

  /** The class the caller gave (or none) followed by " active" or
      nothing; the attribute is dropped when that is empty, and every other
      option is kept. */
  lemma AddClassMeaning(options: Entries, c: string, css: string, k: Value)
    requires Get(options, Sym("class")) == Str(c) || (c == [] && !Truthy(Get(options, Sym("class"))))
    requires k != Sym("class")
    ensures AddClass(options, css).Ok?
    ensures Get(AddClass(options, css).value, Sym("class")) == if c + css == "" then Nil else Str(c + css)
    ensures HasKey(AddClass(options, css).value, Sym("class")) <==> c + css != ""
    ensures Get(AddClass(options, css).value, k) == Get(options, k)
    ensures HasKey(AddClass(options, css).value, k) <==> HasKey(options, k)
  {
    var cls := Sym("class");
    var h := DefaultClass(options);
    GetSet(options, cls, Str(""), cls);
    GetSet(options, cls, Str(""), k);
    HasKeySet(options, cls, Str(""), k);
    var h2 := Set(h, cls, Str(c + css));
    GetSet(h, cls, Str(c + css), cls);
    GetSet(h, cls, Str(c + css), k);
    HasKeySet(h, cls, Str(c + css), cls);
    HasKeySet(h, cls, Str(c + css), k);
    GetDelete(h2, cls, cls);
    GetDelete(h2, cls, k);
    HasKeyDelete(h2, cls, cls);
    HasKeyDelete(h2, cls, k);
  }

  /** A class that is not a String cannot take the appended text: the call
      raises, and the caller's options are left as they were. */
  lemma ClassMustBeString(options: Entries, css: string)
    requires Truthy(Get(options, Sym("class"))) && !Get(options, Sym("class")).Str?
    ensures AddClass(options, css).Raise?
    ensures OptionsAfter(options, css) == options
  {
  }

  // ---------------------------------------------------------------------
  // The rewritten link

  /** The anchor of an absolute link points at its path only:
      `http://example.com/people` renders as a link to `/people`. */
  lemma HrefLosesHost(env: Env, name: string, value: Value, scheme: string, host: string, rest: string)
    requires scheme == "http://" || scheme == "https://"
    requires '/' !in host
    ensures var link := scheme + host + "/" + rest;
            && Render(env, name, link, value, []).Ok?
            && Render(env, name, link, value, []).value.href == "/" + rest
            && Render(env, name, link, value, []).value.href != link
  {
    var link := scheme + host + "/" + rest;
    StripHostMeaning(scheme, host, rest);
    AddClassMeaning([], "", ActiveClass(env, link, value), Sym("active"));
    assert |link| > |"/" + rest|;
  }

  /** The intended helper links to the link as given, with the same
      options as the written one. */
  lemma IntendedHref(env: Env, name: string, link: string, value: Value, options: Entries)
    ensures IntendedRender(env, name, link, value, options).Ok? <==> Render(env, name, link, value, options).Ok?
    ensures IntendedRender(env, name, link, value, options).Ok?
            ==> && IntendedRender(env, name, link, value, options).value.href == link
                && Attrs(IntendedRender(env, name, link, value, options).value)
                   == Attrs(Render(env, name, link, value, options).value)
    ensures StripHost(link) == link ==> IntendedRender(env, name, link, value, options) == Render(env, name, link, value, options)
  {
  }
}
