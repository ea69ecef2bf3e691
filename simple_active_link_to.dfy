/** The latest revision, `SimpleActiveLinkTo`: a path match on the decoded
    request path with a segment boundary, literal and pattern matches on the
    original full path, route and parameter conditions, a per-view cache of
    results, and `aria-current` on the active link. */
module SimpleActiveLinkTo {
  import opened Ruby
  import opened Rails
  import opened LinkOptions

  /** ACTIVE_OPTIONS: the options that steer the helper and never reach the link. */
  const ActiveOptionKeys: seq<Value> :=
    [Sym("active"), Sym("class_active"), Sym("class_inactive"), Sym("active_disable")]

  /** `url.split('#').first.split('?').first`.  When only separators are left
      the result is nil and the next call on it raises NoMethodError. */
  function UrlPath(url: string): Outcome<string> {
    match SplitFirst(url, '#')
    case Str(beforeHash) =>
      (match SplitFirst(beforeHash, '?')
       case Str(path) => Ok(path)
       case _ => Raise(NoMethodError))
    case _ => Raise(NoMethodError)
  }

  /** The branch for `:exclusive`, `:inclusive` and nil: the link's decoded
      path against the decoded request path. */
  function PathActive(env: Env, url: string, exclusive: bool): Outcome<bool> {
    match UrlPath(url)
    case Raise(e) => Raise(e)
    case Ok(path) =>
      var urlString := env.unescape(path);
      var requestUri := env.unescape(env.path);
      if urlString == requestUri then Ok(true)
      else if !exclusive then
        var closing := if EndsWith(urlString, "/") then "" else "/";
        Ok(StartsWith(requestUri, urlString + closing))
      else Ok(false)
  }

  /** The block `|controller, action|` of `controllers.any?`: an Array
      element is spread over the two parameters, any other element fills the
      first one and leaves the second nil. */
  predicate PairNamesRoute(env: Env, element: Value) {
    var controller := if element.List? then At(element.items, 0) else element;
    var action := if element.List? then At(element.items, 1) else Nil;
    Controller(env) == Str(ToS(controller)) && Action(env) == Str(ToS(action))
  }

  /** The `Array` branch: both halves match (an empty half matches anything),
      or some element of the first half names the current controller and
      action. */
  predicate ArrayActive(env: Env, condition: seq<Value>) {
    var controllers := ToArray(At(condition, 0));
    var actions := ToArray(At(condition, 1));
    ((controllers == [] || Controller(env) in controllers) && (actions == [] || Action(env) in actions))
    || exists i :: 0 <= i < |controllers| && PairNamesRoute(env, controllers[i])
  }

  /** What `is_active_link?(url, condition)` computes on a cache miss.  A
      condition of no listed kind leaves the `case` with nil, which callers
      read as false. */
  function Active(env: Env, url: string, condition: Value): Outcome<bool> {
    match condition
    case Nil => PathActive(env, url, false)
    case Sym(n) =>
      if n == "inclusive" then PathActive(env, url, false)
      else if n == "exclusive" then PathActive(env, url, true)
      else if n == "exact" then Ok(env.fullpath == url)
      else Ok(false)
    case Regexp(src) => Ok(env.regexMatches(src, env.fullpath))
    case List(items) => Ok(ArrayActive(env, items))
    case Bool(t) => Ok(t)
    case Hash(es) => Ok(ParamsMatch(env, es))
    case _ => Ok(false)
  }

  /** `active_link_to_class(url, options)` */
  function ChosenClass(env: Env, url: string, options: Entries): Outcome<Value> {
    match Active(env, url, Get(options, Sym("active")))
    case Raise(e) => Raise(e)
    case Ok(active) => Ok(ClassFor(active, options))
  }

  /** What `simple_active_link_to(name, url, html_options)` returns. */
  function Render(env: Env, name: string, url: string, htmlOptions: Entries): Outcome<Markup> {
    var activeOptions := Select(htmlOptions, ActiveOptionKeys);
    var linkOptions := Reject(htmlOptions, ActiveOptionKeys);
    match Active(env, url, Get(activeOptions, Sym("active")))
    case Raise(e) => Raise(e)
    case Ok(active) =>
      var cssClass := ToS(Get(linkOptions, Sym("class"))) + " " + ToS(ClassFor(active, activeOptions));
      var attrs := Set(linkOptions, Sym("class"), Str(Strip(cssClass)));
      Ok(Element(name, url, attrs, active, Get(activeOptions, Sym("active_disable"))))
  }

  /** The element once the link's state and attributes are known: an active
      link gains `aria-current`, and `active_disable` picks a span or a `#`
      link for it. */
  function Element(name: string, url: string, attrs: Entries, active: bool, disable: Value): Markup {
    if !active then Link(Text(name), url, attrs)
    else
      var current := Set(attrs, Sym("aria-current"), Str("page"));
      if disable == Bool(true) then Span(Text(name), current)
      else if disable == Sym("hash") then Link(Text(name), url + "#", current)
      else Link(Text(name), url, current)
  }

  /** The view object the module is mixed into, with its `@is_active_link`
      cache.  The request is fixed for the life of the view. */
  class View {
    const env: Env
    var memo: map<(string, Value), bool>

    /** Every cached answer is the one the matcher gives. */
    ghost predicate Valid()
      reads this
    {
      forall key :: key in memo ==> Active(env, key.0, key.1) == Ok(memo[key])
    }

    constructor (env: Env)
      ensures this.env == env && memo == map[] && Valid()
    {
      this.env := env;
      memo := map[];
    }

    /** `is_active_link?(url, condition)`: `@is_active_link[[url, condition]] ||= ...`
        reuses a cached true and otherwise computes and stores the answer. */
    method IsActiveLink(url: string, condition: Value) returns (r: Outcome<bool>)
      requires Valid()
      modifies this
      ensures Valid()
      ensures r == Active(env, url, condition)
      ensures memo == if r.Ok? then old(memo)[(url, condition) := r.value] else old(memo)
    {
      if (url, condition) in memo && memo[(url, condition)] {
        return Ok(true);
      }
      r := Active(env, url, condition);
      if r.Ok? {
        memo := memo[(url, condition) := r.value];
      }
    }

    /** `active_link_to_class(url, options)` through the cache. */
    method ActiveLinkToClass(url: string, options: Entries) returns (r: Outcome<Value>)
      requires Valid()
      modifies this
      ensures Valid()
      ensures r == ChosenClass(env, url, options)
      ensures var c := Get(options, Sym("active"));
              var a := Active(env, url, c);
              memo == if a.Ok? then old(memo)[(url, c) := a.value] else old(memo)
    {
      var active := IsActiveLink(url, Get(options, Sym("active")));
      match active
      case Raise(e) => return Raise(e);
      case Ok(a) => return Ok(ClassFor(a, options));
    }

    /** `simple_active_link_to(name, url, html_options)`, with `url` already
        produced by `url_for`.  The caller's Hash is only read. */
    method SimpleActiveLinkTo(name: string, url: string, htmlOptions: HashObject) returns (r: Outcome<Markup>)
      requires Valid() && UniqueKeys(htmlOptions.entries)
      modifies this
      ensures Valid()
      ensures r == Render(env, name, url, htmlOptions.entries)
      ensures var c := Get(Select(htmlOptions.entries, ActiveOptionKeys), Sym("active"));
              var a := Active(env, url, c);
              memo == if a.Ok? then old(memo)[(url, c) := a.value] else old(memo)
    {
      var activeOptions, linkOptions := SplitByKeys(htmlOptions, ActiveOptionKeys);
      var cssClass := Get(linkOptions, Sym("class"));
      var activeClass := ActiveLinkToClass(url, activeOptions);
      if activeClass.Raise? {
        return Raise(activeClass.error);
      }
      linkOptions := Set(linkOptions, Sym("class"), Str(Strip(ToS(cssClass) + " " + ToS(activeClass.value))));
      var href := url;
      var active := IsActiveLink(url, Get(activeOptions, Sym("active")));
      if active == Ok(true) {
        linkOptions := Set(linkOptions, Sym("aria-current"), Str("page"));
        var disable := Get(activeOptions, Sym("active_disable"));
        if disable == Bool(true) {
          return Ok(Span(Text(name), linkOptions));
        } else if disable == Sym("hash") {
          href := href + "#";
        }
      }
      return Ok(Link(Text(name), href, linkOptions));
    }
  }

  // ---------------------------------------------------------------------
  // What the matcher promises

  /** The conditions that compare paths: nil, `:inclusive` and `:exclusive`. */
  predicate PathCondition(condition: Value) {
    condition == Nil || condition == Sym("inclusive") || condition == Sym("exclusive")
  }

  /** A link's query string and fragment never take part in a path match:
      only the part before the first `#`, and then before the first `?`, is
      compared. */
  lemma UrlPathOfPath(path: string, rest: string)
    requires path != [] && '#' !in path && '?' !in path
    requires rest == [] || rest[0] == '?' || rest[0] == '#'
    ensures UrlPath(path + rest) == Ok(path)
  {
    var url := path + rest;
    BeforeAppend(path, rest, '#');
    SplitFirstLeading(url, '#');
    var t := Before(rest, '#');
    assert Before(t, '?') == [];
    BeforeAppend(path, t, '?');
    SplitFirstLeading(path + t, '?');
    assert path + [] == path;
  }

  /** So a link with a query or fragment is active exactly when its bare
      path is. */
  lemma FragmentAndQueryIgnored(env: Env, path: string, rest: string, condition: Value)
    requires PathCondition(condition)
    requires path != [] && '#' !in path && '?' !in path
    requires rest == [] || rest[0] == '?' || rest[0] == '#'
    ensures Active(env, path + rest, condition) == Active(env, path, condition)
  {
    UrlPathOfPath(path, rest);
    UrlPathOfPath(path, []);
    assert path + [] == path;
    PathActiveByUrlPath(env, path + rest, path, condition == Sym("exclusive"));
  }

  lemma PathActiveByUrlPath(env: Env, u: string, v: string, exclusive: bool)
    requires UrlPath(u) == UrlPath(v)
    ensures PathActive(env, u, exclusive) == PathActive(env, v, exclusive)
  {
  }

  /** The empty link has no path to compare: `''.split('#').first` is nil,
      and the path conditions raise NoMethodError. */
  lemma EmptyLinkRaises(env: Env, condition: Value)
    requires PathCondition(condition)
    ensures Active(env, "", condition) == Raise(NoMethodError)
  {
  }

  /** Equal decoded paths are active under all three path conditions. */
  lemma EqualPathsActive(env: Env, url: string, condition: Value)
    requires PathCondition(condition)
    requires UrlPath(url).Ok? && env.unescape(UrlPath(url).value) == env.unescape(env.path)
    ensures Active(env, url, condition) == Ok(true)
  {
  }

  /** Under `:inclusive` (or nil) the link is active for its own path and for
      every path below it: the request path must continue the link's path
      (less one trailing `/`) with a `/`. */
  lemma InclusiveMeansSubtree(env: Env, url: string, condition: Value)
    requires condition == Nil || condition == Sym("inclusive")
    requires UrlPath(url).Ok?
    ensures var u := env.unescape(UrlPath(url).value);
            var r := env.unescape(env.path);
            Active(env, url, condition) == Ok(r == u || StartsWith(r, Chomp(u, '/') + "/"))
  {
    var u := env.unescape(UrlPath(url).value);
    if u != [] && u[|u| - 1] == '/' {
      assert Chomp(u, '/') + "/" == u;
      assert EndsWith(u, "/");
    } else {
      assert !EndsWith(u, "/");
    }
  }

  /** A sibling that only shares a string prefix is not active: `/root` does
      not match `/root_path`. */
  lemma InclusiveNoSibling(env: Env, url: string, condition: Value, suffix: string)
    requires condition == Nil || condition == Sym("inclusive")
    requires UrlPath(url).Ok?
    requires var u := env.unescape(UrlPath(url).value);
             !EndsWith(u, "/") && env.unescape(env.path) == u + suffix
    requires suffix != [] && suffix[0] != '/'
    ensures Active(env, url, condition) == Ok(false)
  {
    var u := env.unescape(UrlPath(url).value);
    InclusiveMeansSubtree(env, url, condition);
    assert Chomp(u, '/') == u;
    StartsWithConcat(u + suffix, u, "/");
    assert (u + suffix)[|u|..] == suffix;
  }

  /** Under `:exclusive` only the equal decoded path is active. */
  lemma ExclusiveMeansEqual(env: Env, url: string)
    requires UrlPath(url).Ok?
    ensures Active(env, url, Sym("exclusive")) == Ok(env.unescape(UrlPath(url).value) == env.unescape(env.path))
  {
  }

  /** `:exact` compares the full path with its query string: a request with
      a query never exactly matches a link without one. */
  lemma ExactKeepsQuery(env: Env, url: string)
    requires '?' in env.fullpath && '?' !in url
    ensures Active(env, url, Sym("exact")) == Ok(false)
  {
  }

  /** Empty halves are wildcards: `[]`, `[nil, nil]` and `[[], []]` match
      every route. */
  lemma ArrayWildcards(env: Env, url: string)
    ensures Active(env, url, List([])) == Ok(true)
    ensures Active(env, url, List([Nil, Nil])) == Ok(true)
    ensures Active(env, url, List([List([]), List([])])) == Ok(true)
  {
  }

  /** `['users', 'index']` names one controller and one action, for any
      request whose action name is not empty.  (The element-wise fallback
      reads the string `'users'` as a pair with a nil action, so it would
      also accept controller `users` with the action "".) */
  lemma ArrayNamedRoute(env: Env, url: string, c: string, a: string)
    requires Action(env) != Str("")
    ensures Active(env, url, List([Str(c), Str(a)])) == Ok(Controller(env) == Str(c) && Action(env) == Str(a))
  {
    var controllers := ToArray(Str(c));
    assert controllers == [Str(c)];
    assert !PairNamesRoute(env, controllers[0]);
  }

  function PairList(pairs: seq<(string, string)>): Value {
    List(seq(|pairs|, i requires 0 <= i < |pairs| => List([Str(pairs[i].0), Str(pairs[i].1)])))
  }

  /** A first element that lists `[controller, action]` pairs matches when
      the current route is one of the pairs. */
  lemma ArrayPairList(env: Env, url: string, pairs: seq<(string, string)>)
    requires pairs != [] && Controller(env).Str?
    ensures Active(env, url, List([PairList(pairs)]))
         == Ok(exists i :: 0 <= i < |pairs| && Controller(env) == Str(pairs[i].0) && Action(env) == Str(pairs[i].1))
  {
    var controllers := ToArray(PairList(pairs));
    assert Controller(env) !in controllers;
    forall i | 0 <= i < |pairs|
      ensures PairNamesRoute(env, controllers[i]) <==> Controller(env) == Str(pairs[i].0) && Action(env) == Str(pairs[i].1)
    {
      assert controllers[i] == List([Str(pairs[i].0), Str(pairs[i].1)]);
    }
    if exists i :: 0 <= i < |pairs| && Controller(env) == Str(pairs[i].0) && Action(env) == Str(pairs[i].1) {
      var i :| 0 <= i < |pairs| && Controller(env) == Str(pairs[i].0) && Action(env) == Str(pairs[i].1);
      assert PairNamesRoute(env, controllers[i]);
    }
  }

  /** A Boolean condition is its own answer; an empty Hash is always active. */
  lemma ConstantConditions(env: Env, url: string, b: bool)
    ensures Active(env, url, Bool(b)) == Ok(b)
    ensures Active(env, url, Hash([])) == Ok(true)
  {
  }

  /** Parameter conditions compare strings: with `a` set to "1", `{a: 1}`
      matches, `{a: 1, b: 2}` does not when `b` is absent, and
      `{a: 1, c: nil}` still matches, since an absent parameter and nil both
      read as "". */
  lemma HashExamples(env: Env, url: string)
    requires env.params == map["a" := Str("1")]
    ensures Active(env, url, Hash([(Sym("a"), Int(1))])) == Ok(true)
    ensures Active(env, url, Hash([(Sym("a"), Int(1)), (Sym("b"), Int(2))])) == Ok(false)
    ensures Active(env, url, Hash([(Sym("a"), Int(1)), (Sym("c"), Nil)])) == Ok(true)
  {
    assert Decimal(1) == "1";
    assert Decimal(2) == "2";
    var two := [(Sym("a"), Int(1)), (Sym("b"), Int(2))];
    assert ToS(Param(env, two[1].0)) != ToS(two[1].1);
  }

  /** Without `:class_active` or `:class_inactive` the class is "active" for
      an active link and "" otherwise. */
  lemma DefaultClasses(env: Env, url: string, options: Entries)
    requires !HasKey(options, Sym("class_active")) && !HasKey(options, Sym("class_inactive"))
    requires Active(env, url, Get(options, Sym("active"))).Ok?
    ensures ChosenClass(env, url, options)
         == Ok(Str(if Active(env, url, Get(options, Sym("active"))).value then "active" else ""))
  {
  }

  /** A truthy `class_active` is the class of an active link and a truthy
      `class_inactive` that of an inactive one; with both given and
      different, the class tells the link's state apart. */
  lemma CustomClasses(env: Env, url: string, options: Entries)
    requires Active(env, url, Get(options, Sym("active"))).Ok?
    ensures ChosenClass(env, url, options).Ok?
    ensures var active := Active(env, url, Get(options, Sym("active"))).value;
            var key := Sym(if active then "class_active" else "class_inactive");
            Truthy(Get(options, key)) ==> ChosenClass(env, url, options) == Ok(Get(options, key))
    ensures Truthy(Get(options, Sym("class_active"))) && Truthy(Get(options, Sym("class_inactive")))
            && Get(options, Sym("class_active")) != Get(options, Sym("class_inactive"))
            ==> (ChosenClass(env, url, options).value == Get(options, Sym("class_active"))
                 <==> Active(env, url, Get(options, Sym("active"))) == Ok(true))
  {
  }

  // ---------------------------------------------------------------------
  // What the rendered link promises

  /** The rendered element: an active link carries `aria-current="page"`, a
      span appears only for an active link with `active_disable: true`, and
      `active_disable: :hash` only adds `#` to an active link's URL. The
      class attribute always holds the caller's class and the chosen one,
      joined and stripped. No active option reaches the element, and every
      other option of the caller reaches it unchanged. */
  lemma RenderShape(env: Env, name: string, url: string, htmlOptions: Entries, k: Value)
    requires Active(env, url, Get(htmlOptions, Sym("active"))).Ok?
    ensures Render(env, name, url, htmlOptions).Ok?
    ensures var active := Active(env, url, Get(htmlOptions, Sym("active"))).value;
            var m := Render(env, name, url, htmlOptions).value;
            var disable := Get(htmlOptions, Sym("active_disable"));
            && (Get(Attrs(m), Sym("aria-current")) == if active then Str("page") else Get(htmlOptions, Sym("aria-current")))
            && (m.Tag? <==> active && disable == Bool(true))
            && (m.Link? ==> m.href == if active && disable == Sym("hash") then url + "#" else url)
            && Get(Attrs(m), Sym("class"))
               == Str(Strip(ToS(Get(htmlOptions, Sym("class"))) + " " + ToS(ChosenClass(env, url, htmlOptions).value)))
            && (k in ActiveOptionKeys ==> !HasKey(Attrs(m), k))
            && (k !in ActiveOptionKeys && k != Sym("class") && k != Sym("aria-current")
                ==> Get(Attrs(m), k) == Get(htmlOptions, k))
  {
    RenderUnfold(env, name, url, htmlOptions);
    var linkOptions := Reject(htmlOptions, ActiveOptionKeys);
    GetReject(htmlOptions, ActiveOptionKeys, Sym("aria-current"));
    var cls := Strip(ToS(Get(htmlOptions, Sym("class"))) + " " + ToS(ChosenClass(env, url, htmlOptions).value));
    var active := Active(env, url, Get(htmlOptions, Sym("active"))).value;
    var m := Element(name, url, Set(linkOptions, Sym("class"), Str(cls)), active, Get(htmlOptions, Sym("active_disable")));
    ElementShape(name, url, linkOptions, cls, active, Get(htmlOptions, Sym("active_disable")));
    ElementKeys(name, url, linkOptions, cls, active, Get(htmlOptions, Sym("active_disable")), k);
    LinkOptionKeys(htmlOptions, k);
    assert Render(env, name, url, htmlOptions).value == m;
  }

  /** The caller's options without the active ones, key by key. */
  lemma LinkOptionKeys(htmlOptions: Entries, k: Value)
    ensures k in ActiveOptionKeys
            ==> !HasKey(Reject(htmlOptions, ActiveOptionKeys), k) && k != Sym("class") && k != Sym("aria-current")
    ensures k !in ActiveOptionKeys ==> Get(Reject(htmlOptions, ActiveOptionKeys), k) == Get(htmlOptions, k)
  {
    HasKeyReject(htmlOptions, ActiveOptionKeys, k);
    SymNotListed("class", ActiveOptionKeys);
    assert Sym("aria-current") !in ActiveOptionKeys;
    if k !in ActiveOptionKeys {
      GetReject(htmlOptions, ActiveOptionKeys, k);
    }
  }

  /** The element keeps every key of the link options other than `class`
      and `aria-current` as it is. */
  lemma ElementKeys(name: string, url: string, linkOptions: Entries, cls: string, active: bool, disable: Value, k: Value)
    ensures var m := Element(name, url, Set(linkOptions, Sym("class"), Str(cls)), active, disable);
            k != Sym("class") && k != Sym("aria-current")
            ==> Get(Attrs(m), k) == Get(linkOptions, k) && (HasKey(Attrs(m), k) <==> HasKey(linkOptions, k))
  {
    var attrs := Set(linkOptions, Sym("class"), Str(cls));
    var m := Element(name, url, attrs, active, disable);
    assert Attrs(m) == if active then Set(attrs, Sym("aria-current"), Str("page")) else attrs;
    GetSet(linkOptions, Sym("class"), Str(cls), k);
    HasKeySet(linkOptions, Sym("class"), Str(cls), k);
    GetSet(attrs, Sym("aria-current"), Str("page"), k);
    HasKeySet(attrs, Sym("aria-current"), Str("page"), k);
  }

  /** `Render` with every option read off the caller's Hash. */
  lemma RenderUnfold(env: Env, name: string, url: string, htmlOptions: Entries)
    requires Active(env, url, Get(htmlOptions, Sym("active"))).Ok?
    ensures var cls := Strip(ToS(Get(htmlOptions, Sym("class"))) + " " + ToS(ChosenClass(env, url, htmlOptions).value));
            var attrs := Set(Reject(htmlOptions, ActiveOptionKeys), Sym("class"), Str(cls));
            Render(env, name, url, htmlOptions)
            == Ok(Element(name, url, attrs, Active(env, url, Get(htmlOptions, Sym("active"))).value, Get(htmlOptions, Sym("active_disable"))))
  {
    var activeOptions := Select(htmlOptions, ActiveOptionKeys);
    GetSelect(htmlOptions, ActiveOptionKeys, Sym("active"));
    GetSelect(htmlOptions, ActiveOptionKeys, Sym("active_disable"));
    GetSelect(htmlOptions, ActiveOptionKeys, Sym("class_active"));
    GetSelect(htmlOptions, ActiveOptionKeys, Sym("class_inactive"));
    SymNotListed("class", ActiveOptionKeys);
    GetReject(htmlOptions, ActiveOptionKeys, Sym("class"));
    var active := Active(env, url, Get(htmlOptions, Sym("active"))).value;
    assert ClassFor(active, activeOptions) == ClassFor(active, htmlOptions);
  }

  /** What the element promises about its attributes and its kind. */
  lemma ElementShape(name: string, url: string, linkOptions: Entries, cls: string, active: bool, disable: Value)
    ensures var m := Element(name, url, Set(linkOptions, Sym("class"), Str(cls)), active, disable);
            && (Get(Attrs(m), Sym("aria-current")) == if active then Str("page") else Get(linkOptions, Sym("aria-current")))
            && (m.Tag? <==> active && disable == Bool(true))
            && (m.Link? ==> m.href == if active && disable == Sym("hash") then url + "#" else url)
            && Get(Attrs(m), Sym("class")) == Str(cls)
  {
    var attrs := Set(linkOptions, Sym("class"), Str(cls));
    GetSet(linkOptions, Sym("class"), Str(cls), Sym("class"));
    GetSet(linkOptions, Sym("class"), Str(cls), Sym("aria-current"));
    GetSet(attrs, Sym("aria-current"), Str("page"), Sym("aria-current"));
    GetSet(attrs, Sym("aria-current"), Str("page"), Sym("class"));
  }

  /** An active link with a plain class gets both words, one space apart:
      `class: 'current'` becomes "current active". */
  lemma RenderJoinsClasses(env: Env, name: string, url: string, htmlOptions: Entries, c: string, a: string)
    requires Active(env, url, Get(htmlOptions, Sym("active"))).Ok?
    requires Get(htmlOptions, Sym("class")) == Str(c) && ChosenClass(env, url, htmlOptions) == Ok(Str(a))
    requires Trimmed(c) && Trimmed(a)
    ensures Render(env, name, url, htmlOptions).Ok?
    ensures Get(Attrs(Render(env, name, url, htmlOptions).value), Sym("class"))
         == Str(if c == [] then a else if a == [] then c else c + " " + a)
  {
    RenderUnfold(env, name, url, htmlOptions);
    var cls := Strip(ToS(Get(htmlOptions, Sym("class"))) + " " + ToS(ChosenClass(env, url, htmlOptions).value));
    assert cls == Strip(c + " " + a);
    StripJoin(c, a);
    var active := Active(env, url, Get(htmlOptions, Sym("active"))).value;
    ElementShape(name, url, Reject(htmlOptions, ActiveOptionKeys), cls, active, Get(htmlOptions, Sym("active_disable")));
  }

  /** On `/root` a bare link to `/root` renders as
      `<a class="active" aria-current="page" href="/root">label</a>`. */
  lemma ActiveRootLink(env: Env)
    requires env.path == "/root" && env.unescape("/root") == "/root"
    ensures Render(env, "label", "/root", [])
         == Ok(Link(Text("label"), "/root", [(Sym("class"), Str("active")), (Sym("aria-current"), Str("page"))]))
  {
    RootIsActive(env);
    RenderUnfold(env, "label", "/root", []);
    assert Reject([], ActiveOptionKeys) == [];
    ActiveClassAttr([]);
  }

  /** With `active_disable: true` the same link is a span:
      `<span class="active" aria-current="page">label</span>`. */
  lemma DisabledRootLink(env: Env)
    requires env.path == "/root" && env.unescape("/root") == "/root"
    ensures Render(env, "label", "/root", [(Sym("active_disable"), Bool(true))])
         == Ok(Span(Text("label"), [(Sym("class"), Str("active")), (Sym("aria-current"), Str("page"))]))
  {
    var h := [(Sym("active_disable"), Bool(true))];
    RootIsActive(env);
    assert h == [] + [h[0]];
    assert Select(h, ActiveOptionKeys) == h by {
      assert h[..0] == [];
    }
    assert Reject(h, ActiveOptionKeys) == [] by {
      assert h[..0] == [];
    }
    ActiveClassAttr(h);
  }

  lemma RootIsActive(env: Env)
    requires env.path == "/root" && env.unescape("/root") == "/root"
    ensures Active(env, "/root", Nil) == Ok(true)
  {
    UrlPathOfPath("/root", []);
    assert "/root" + [] == "/root";
  }

  /** No caller class and no `class_active`: an active link gets "active". */
  lemma ActiveClassAttr(activeOptions: Entries)
    requires !HasKey(activeOptions, Sym("class_active"))
    ensures Set(Set([], Sym("class"), Str(Strip(ToS(Get([], Sym("class"))) + " " + ToS(ClassFor(true, activeOptions))))),
                Sym("aria-current"), Str("page"))
         == [(Sym("class"), Str("active")), (Sym("aria-current"), Str("page"))]
  {
    assert Trimmed("active");
    SoleClass(Get([], Sym("class")), ClassFor(true, activeOptions), "active");
    RootAttributes();
  }

  /** No caller class and the chosen class `a`: the attribute is `a`. */
  lemma SoleClass(linkClass: Value, chosen: Value, a: string)
    requires linkClass == Nil && chosen == Str(a) && Trimmed(a)
    ensures Strip(ToS(linkClass) + " " + ToS(chosen)) == a
  {
    StripJoin("", a);
    assert ToS(linkClass) + " " + ToS(chosen) == "" + " " + a;
  }

  /** The class and then `aria-current`, set on an empty Hash. */
  lemma RootAttributes()
    ensures Set(Set([], Sym("class"), Str("active")), Sym("aria-current"), Str("page"))
         == [(Sym("class"), Str("active")), (Sym("aria-current"), Str("page"))]
  {
    assert Set([], Sym("class"), Str("active")) == [(Sym("class"), Str("active"))];
  }
}
