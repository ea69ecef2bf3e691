/** The `ActiveLinkTo` revision: path conditions encoded as regular
    expressions over the full request path, Array and Hash conditions, and a
    link that may be wrapped in a tag carrying the same class. */
module ActiveLinkTo {
  import opened Ruby
  import opened Regex
  import opened Rails
  import opened LinkOptions

  /** The options that steer the helper and never reach the link. */
  const ActiveOptionKeys: seq<Value> :=
    [Sym("active"), Sym("class_active"), Sym("class_inactive"), Sym("active_disable"), Sym("wrap_tag")]

  /** The `Array` branch: `[*condition[0]]` and `[*condition[1]]` must both
      match, and an empty list matches anything. */
  predicate ArrayActive(env: Env, condition: seq<Value>) {
    var controllers := ToArray(At(condition, 0));
    var actions := ToArray(At(condition, 1));
    (controllers == [] || Controller(env) in controllers) && (actions == [] || Action(env) in actions)
  }

  /** `is_active_link?(url, condition)`.  The path conditions use only the
      path of the parsed link; `:exact` compares the link as given.  A
      condition of no listed kind gives nil, read as false. */
  predicate Active(env: Env, url: string, condition: Value) {
    var path := env.uriPath(url);
    match condition
    case Nil => FullMatch(SegmentPattern(Chomp(path, '/')), env.fullpath)
    case Sym(n) =>
      if n == "inclusive" then FullMatch(SegmentPattern(Chomp(path, '/')), env.fullpath)
      else if n == "exclusive" then FullMatch(PagePattern(path), env.fullpath)
      else if n == "exact" then env.fullpath == url
      else false
    case Regexp(src) => env.regexMatches(src, env.fullpath)
    case List(items) => ArrayActive(env, items)
    case Bool(t) => t
    case Hash(es) => ParamsMatch(env, es)
    case _ => false
  }

  /** `active_link_to_class(url, options)` */
  function ChosenClass(env: Env, url: string, options: Entries): Value {
    ClassFor(Active(env, url, Get(options, Sym("active"))), options)
  }

  /** `css_class << active_link_to_class(...)` followed by `strip!`. */
  function ComposedClass(env: Env, url: string, linkClass: Value, activeOptions: Entries): Outcome<string> {
    match Concat(ToS(linkClass) + " ", AsciiToS(linkClass), ChosenClass(env, url, activeOptions))
    case Raise(e) => Raise(e)
    case Ok(css) => Ok(Strip(css))
  }

  /** The link's attributes: the caller's, without `:class` unless the
      composed class is present. */
  function LinkAttributes(linkOptions: Entries, css: string): Entries {
    var rest := Delete(linkOptions, Sym("class"));
    if Present(Str(css)) then Set(rest, Sym("class"), Str(css)) else rest
  }

  /** `wrap_tag ? content_tag(wrap_tag, link, :class => ...) : link`, where
      only a present `wrap_tag` option counts. */
  function Wrap(wrapOption: Value, css: string, link: Markup): Markup {
    var wrapTag := if Present(wrapOption) then wrapOption else Nil;
    if Truthy(wrapTag) then Tag(wrapTag, [(Sym("class"), if Present(Str(css)) then Str(css) else Nil)], link)
    else link
  }

  /** What `active_link_to(name, url, html_options)` returns. */
  function Render(env: Env, name: string, url: string, htmlOptions: Entries): Outcome<Markup> {
    var activeOptions := Select(htmlOptions, ActiveOptionKeys);
    var linkOptions := Reject(htmlOptions, ActiveOptionKeys);
    match ComposedClass(env, url, Get(linkOptions, Sym("class")), activeOptions)
    case Raise(e) => Raise(e)
    case Ok(css) =>
      var attrs := LinkAttributes(linkOptions, css);
      var link :=
        if Get(activeOptions, Sym("active_disable")) == Bool(true) && Active(env, url, Get(activeOptions, Sym("active")))
        then Span(Text(name), attrs)
        else Link(Text(name), url, attrs);
      Ok(Wrap(Get(activeOptions, Sym("wrap_tag")), css, link))
  }

  /** `active_link_to(name, url, html_options)`, with `url` already produced
      by `url_for`.  The caller's Hash is only read. */
  method ActiveLinkTo(env: Env, name: string, url: string, htmlOptions: HashObject) returns (r: Outcome<Markup>)
    requires UniqueKeys(htmlOptions.entries)
    ensures r == Render(env, name, url, htmlOptions.entries)
  {
    var activeOptions, linkOptions := SplitByKeys(htmlOptions, ActiveOptionKeys);
    var cssClass := ToS(Get(linkOptions, Sym("class"))) + " ";
    var ascii := AsciiToS(Get(linkOptions, Sym("class")));
    linkOptions := Delete(linkOptions, Sym("class"));
    var active := Active(env, url, Get(activeOptions, Sym("active")));
    var appended := Concat(cssClass, ascii, ClassFor(active, activeOptions));
    if appended.Raise? {
      return Raise(appended.error);
    }
    cssClass := Strip(appended.value);
    var wrapTag := Nil;
    if Present(Get(activeOptions, Sym("wrap_tag"))) {
      wrapTag := Get(activeOptions, Sym("wrap_tag"));
    }
    if Present(Str(cssClass)) {
      linkOptions := Set(linkOptions, Sym("class"), Str(cssClass));
    }
    var link;
    if Get(activeOptions, Sym("active_disable")) == Bool(true) && active {
      link := Span(Text(name), linkOptions);
    } else {
      link := Link(Text(name), url, linkOptions);
    }
    if Truthy(wrapTag) {
      var wrapClass := if Present(Str(cssClass)) then Str(cssClass) else Nil;
      return Ok(Tag(wrapTag, [(Sym("class"), wrapClass)], link));
    }
    return Ok(link);
  }

  // ---------------------------------------------------------------------
  // What the matcher promises

  /** Under `:inclusive` (or nil) the full path is the link's path (less one
      trailing `/`), or continues it with `/` or with a query string. */
  lemma InclusiveMeaning(env: Env, url: string, condition: Value)
    requires condition == Nil || condition == Sym("inclusive")
    ensures var c := Chomp(env.uriPath(url), '/');
            var f := env.fullpath;
            Active(env, url, condition) <==> f == c || StartsWith(f, c + "/") || StartsWith(f, c + "?")
  {
    SegmentPatternMeaning(Chomp(env.uriPath(url), '/'), env.fullpath);
  }

  /** A sibling that only shares a string prefix is not active: `/root/`
      and `/root` both reject `/root_path`, and `/root/a` rejects `/root/abc`. */
  lemma InclusiveNoSibling(env: Env, url: string, condition: Value, suffix: string)
    requires condition == Nil || condition == Sym("inclusive")
    requires env.fullpath == Chomp(env.uriPath(url), '/') + suffix
    requires suffix != [] && suffix[0] != '/' && suffix[0] != '?'
    ensures !Active(env, url, condition)
  {
    var c := Chomp(env.uriPath(url), '/');
    InclusiveMeaning(env, url, condition);
    StartsWithConcat(env.fullpath, c, "/");
    StartsWithConcat(env.fullpath, c, "?");
    assert env.fullpath[|c|..] == suffix;
  }

  /** Under `:exclusive` the full path is the link's path, then at most one
      `/`, then at most a query string. */
  lemma ExclusiveMeaning(env: Env, url: string)
    ensures var p := env.uriPath(url);
            var f := env.fullpath;
            (Active(env, url, Sym("exclusive"))
             <==> f == p || f == p + "/" || StartsWith(f, p + "?") || StartsWith(f, p + "/?"))
  {
    PagePatternMeaning(env.uriPath(url), env.fullpath);
  }

  /** So a page below the link is not active under `:exclusive`:
      `/root/child` is not `/root`. */
  lemma ExclusiveNoChild(env: Env, url: string, child: string)
    requires env.fullpath == env.uriPath(url) + "/" + child
    requires child != [] && child[0] != '?'
    ensures !Active(env, url, Sym("exclusive"))
  {
    var p := env.uriPath(url);
    var f := env.fullpath;
    ExclusiveMeaning(env, url);
    StartsWithConcat(f, p, "?");
    StartsWithConcat(f, p, "/?");
    assert f[|p|..] == "/" + child;
    assert f[|p|..][..2] == "/" + [child[0]];
  }

  /** The path conditions see only the parsed path: two links with the same
      path agree under them, whatever their query strings.  `:exact` sees the
      link as given, so two different links are never both exact. */
  lemma ParsedPathOnly(env: Env, url1: string, url2: string, condition: Value)
    requires env.uriPath(url1) == env.uriPath(url2)
    ensures (condition == Nil || condition == Sym("inclusive") || condition == Sym("exclusive"))
         ==> (Active(env, url1, condition) <==> Active(env, url2, condition))
    ensures url1 != url2 ==> !(Active(env, url1, Sym("exact")) && Active(env, url2, Sym("exact")))
  {
  }

  /** A single controller or action name means the same as a list of one. */
  lemma ArraySingleNames(env: Env, url: string, c: Value, a: Value)
    requires !c.Nil? && !c.List? && !c.Hash? && !a.Nil? && !a.List? && !a.Hash?
    ensures Active(env, url, List([c, a])) == Active(env, url, List([List([c]), List([a])]))
  {
  }

  /** Empty halves are wildcards: `[[], ['edit']]` matches the `edit`
      action of any controller, `[['people'], []]` any action of `people`. */
  lemma ArrayWildcards(env: Env, url: string, names: seq<Value>)
    ensures Active(env, url, List([List([]), List(names)])) <==> names == [] || Action(env) in names
    ensures Active(env, url, List([List(names), List([])])) <==> names == [] || Controller(env) in names
    ensures Active(env, url, List([]))
  {
  }

  /** The Array cases of test/active_link_to_test.rb that list names, for
      the route `controller#action`. */
  lemma ArrayListExamples(env: Env, url: string)
    requires Controller(env) == Str("controller") && Action(env) == Str("action")
    ensures Active(env, url, List([List([Str("controller")]), List([Str("action")])]))
    ensures Active(env, url, List([List([Str("controller")]), List([Str("action"), Str("action_b")])]))
    ensures Active(env, url, List([List([Str("controller"), Str("controller_b")]), List([Str("action")])]))
    ensures Active(env, url, List([List([Str("controller"), Str("controller_b")]), List([Str("action"), Str("action_b")])]))
  {
  }

  /** The Array cases of test/active_link_to_test.rb with single names. */
  lemma ArraySingleExamples(env: Env, url: string)
    requires Controller(env) == Str("controller") && Action(env) == Str("action")
    ensures Active(env, url, List([Str("controller"), Str("action")]))
    ensures Active(env, url, List([Str("controller"), List([Str("action"), Str("action_b")])]))
    ensures Active(env, url, List([List([Str("controller"), Str("controller_b")]), Str("action")]))
  {
  }

  /** The Array cases of test/active_link_to_test.rb that do not match. */
  lemma ArrayMismatchExamples(env: Env, url: string)
    requires Controller(env) == Str("controller") && Action(env) == Str("action")
    ensures !Active(env, url, List([Str("controller_a"), Str("action")]))
    ensures !Active(env, url, List([Str("controller"), Str("action_a")]))
  {
    assert ToArray(Str("controller_a")) == [Str("controller_a")];
    assert ToArray(Str("action_a")) == [Str("action_a")];
  }

  /** `true` and `false` are constant; a Hash matches the parameters as
      strings, and the empty Hash always matches. */
  lemma ConstantAndHashConditions(env: Env, url: string, b: bool, condition: Entries, key: Value, value: Value)
    ensures Active(env, url, Bool(b)) == b
    ensures Active(env, url, Hash([]))
    ensures Active(env, url, Hash(condition + [(key, value)]))
        <==> Active(env, url, Hash(condition)) && ToS(Param(env, key)) == ToS(value)
  {
    ParamsMatchAppend(env, condition, key, value);
  }

  /** The `:inclusive` cases of test/active_link_to_test.rb, for a parser
      that keeps a plain path and drops the query of `/root?attr=example`. */
  lemma InclusiveExamples(env: Env)
    requires env.uriPath("/root") == "/root" && env.uriPath("/root/") == "/root/"
    requires env.uriPath("/root?attr=example") == "/root"
    ensures env.fullpath == "/root" ==> Active(env, "/root", Sym("inclusive"))
    ensures env.fullpath == "/root?param=test" ==> Active(env, "/root", Sym("inclusive"))
    ensures env.fullpath == "/root?param=test" ==> Active(env, "/root?attr=example", Nil)
    ensures env.fullpath == "/root/child/sub-child" ==> Active(env, "/root", Sym("inclusive"))
    ensures env.fullpath == "/root/child/sub-child" ==> Active(env, "/root", Nil)
    ensures env.fullpath == "/root/abc" ==> Active(env, "/root/", Nil)
    ensures env.fullpath == "/other" ==> !Active(env, "/root", Sym("inclusive"))
  {
    assert Chomp("/root", '/') == "/root";
    assert Chomp("/root/", '/') == "/root";
    InclusiveMeaning(env, "/root", Sym("inclusive"));
    InclusiveMeaning(env, "/root", Nil);
    InclusiveMeaning(env, "/root/", Nil);
    InclusiveMeaning(env, "/root?attr=example", Nil);
    if env.fullpath == "/root?param=test" {
      assert env.fullpath[..6] == "/root?";
    }
    if env.fullpath == "/root/child/sub-child" || env.fullpath == "/root/abc" {
      assert env.fullpath[..6] == "/root/";
    }
    if env.fullpath == "/other" {
      assert env.fullpath[..5] != "/root";
    }
  }

  /** The sibling cases of test/active_link_to_test.rb: `/root/a` is not
      active on `/root/abc`, nor `/root/` on `/root_path`. */
  lemma SiblingExamples(env: Env)
    requires env.uriPath("/root/") == "/root/" && env.uriPath("/root/a") == "/root/a"
    ensures env.fullpath == "/root/abc" ==> !Active(env, "/root/a", Sym("inclusive"))
    ensures env.fullpath == "/root_path" ==> !Active(env, "/root/", Nil)
  {
    assert Chomp("/root/", '/') == "/root";
    assert Chomp("/root/a", '/') == "/root/a";
    if env.fullpath == "/root/abc" {
      InclusiveNoSibling(env, "/root/a", Sym("inclusive"), "bc");
    }
    if env.fullpath == "/root_path" {
      InclusiveNoSibling(env, "/root/", Nil, "_path");
    }
  }

  /** The `:exclusive` cases of test/active_link_to_test.rb. */
  lemma ExclusiveExamples(env: Env)
    requires env.uriPath("/root") == "/root" && env.uriPath("/root?attr=example") == "/root"
    ensures env.fullpath == "/root" ==> Active(env, "/root", Sym("exclusive"))
    ensures env.fullpath == "/root?param=test" ==> Active(env, "/root", Sym("exclusive"))
    ensures env.fullpath == "/root?param=test" ==> Active(env, "/root?attr=example", Sym("exclusive"))
    ensures env.fullpath == "/root/child" ==> !Active(env, "/root", Sym("exclusive"))
  {
    ExclusiveMeaning(env, "/root");
    ExclusiveMeaning(env, "/root?attr=example");
    if env.fullpath == "/root?param=test" {
      assert env.fullpath[..6] == "/root?";
    }
    if env.fullpath == "/root/child" {
      ExclusiveNoChild(env, "/root", "child");
    }
  }

  // ---------------------------------------------------------------------
  // What the rendered link promises

  /** The class the link gets, read off the caller's options. */
  function CallerComposedClass(env: Env, url: string, htmlOptions: Entries): Outcome<string> {
    match Concat(ToS(Get(htmlOptions, Sym("class"))) + " ", AsciiToS(Get(htmlOptions, Sym("class"))), ChosenClass(env, url, htmlOptions))
    case Raise(e) => Raise(e)
    case Ok(css) => Ok(Strip(css))
  }

  /** The options that reach the rendering read as in the caller's Hash. */
  lemma RenderReads(env: Env, url: string, htmlOptions: Entries)
    ensures var activeOptions := Select(htmlOptions, ActiveOptionKeys);
            && ComposedClass(env, url, Get(Reject(htmlOptions, ActiveOptionKeys), Sym("class")), activeOptions)
               == CallerComposedClass(env, url, htmlOptions)
            && Get(activeOptions, Sym("active")) == Get(htmlOptions, Sym("active"))
            && Get(activeOptions, Sym("active_disable")) == Get(htmlOptions, Sym("active_disable"))
            && Get(activeOptions, Sym("wrap_tag")) == Get(htmlOptions, Sym("wrap_tag"))
  {
    var keys := ActiveOptionKeys;
    GetSelect(htmlOptions, keys, Sym("active"));
    GetSelect(htmlOptions, keys, Sym("active_disable"));
    GetSelect(htmlOptions, keys, Sym("class_active"));
    GetSelect(htmlOptions, keys, Sym("class_inactive"));
    GetSelect(htmlOptions, keys, Sym("wrap_tag"));
    SymNotListed("class", keys);
    GetReject(htmlOptions, keys, Sym("class"));
    ComposedClassReads(env, url, htmlOptions, Select(htmlOptions, keys), Reject(htmlOptions, keys));
  }

  /** The composed class depends on the caller's options only through the
      keys it reads. */
  lemma ComposedClassReads(env: Env, url: string, htmlOptions: Entries, activeOptions: Entries, linkOptions: Entries)
    requires Get(activeOptions, Sym("active")) == Get(htmlOptions, Sym("active"))
    requires Get(activeOptions, Sym("class_active")) == Get(htmlOptions, Sym("class_active"))
    requires Get(activeOptions, Sym("class_inactive")) == Get(htmlOptions, Sym("class_inactive"))
    requires Get(linkOptions, Sym("class")) == Get(htmlOptions, Sym("class"))
    ensures ComposedClass(env, url, Get(linkOptions, Sym("class")), activeOptions) == CallerComposedClass(env, url, htmlOptions)
  {
    assert ChosenClass(env, url, activeOptions) == ChosenClass(env, url, htmlOptions);
  }

  /** The composed class is set when it is not empty, and is the only
      attribute the helper adds or removes. */
  lemma LinkAttributesMeaning(linkOptions: Entries, css: string, k: Value)
    requires Trimmed(css)
    ensures HasKey(LinkAttributes(linkOptions, css), Sym("class")) <==> css != []
    ensures Get(LinkAttributes(linkOptions, css), Sym("class")) == if css != [] then Str(css) else Nil
    ensures k != Sym("class") ==> (HasKey(LinkAttributes(linkOptions, css), k) <==> HasKey(linkOptions, k))
    ensures k != Sym("class") ==> Get(LinkAttributes(linkOptions, css), k) == Get(linkOptions, k)
  {
    var rest := Delete(linkOptions, Sym("class"));
    PresentTrimmed(css);
    HasKeyDelete(linkOptions, Sym("class"), Sym("class"));
    HasKeySet(rest, Sym("class"), Str(css), Sym("class"));
    GetDelete(linkOptions, Sym("class"), Sym("class"));
    GetSet(rest, Sym("class"), Str(css), Sym("class"));
    HasKeyDelete(linkOptions, Sym("class"), k);
    HasKeySet(rest, Sym("class"), Str(css), k);
    GetDelete(linkOptions, Sym("class"), k);
    GetSet(rest, Sym("class"), Str(css), k);
  }

  /** `Render` with every option read off the caller's Hash. */
  lemma RenderUnfold(env: Env, name: string, url: string, htmlOptions: Entries)
    requires CallerComposedClass(env, url, htmlOptions).Ok?
    ensures var css := CallerComposedClass(env, url, htmlOptions).value;
            var attrs := LinkAttributes(Reject(htmlOptions, ActiveOptionKeys), css);
            var active := Active(env, url, Get(htmlOptions, Sym("active")));
            var link := if Get(htmlOptions, Sym("active_disable")) == Bool(true) && active
                        then Span(Text(name), attrs) else Link(Text(name), url, attrs);
            Render(env, name, url, htmlOptions) == Ok(Wrap(Get(htmlOptions, Sym("wrap_tag")), css, link))
  {
    RenderReads(env, url, htmlOptions);
  }

  /** The element a wrapper holds, or the element itself. */
  function Element(m: Markup, wrapOption: Value): Markup {
    if Present(wrapOption) && m.Tag? then m.content else m
  }

  /** Inside or outside a wrapper, the element is the one rendered. */
  lemma ElementOfWrap(wrapOption: Value, css: string, link: Markup)
    ensures Element(Wrap(wrapOption, css, link), wrapOption) == link
  {
  }

  /** A span exactly for an active link with `active_disable: true`; a link
      otherwise, to the URL as given. */
  lemma RenderElement(env: Env, name: string, url: string, htmlOptions: Entries)
    requires CallerComposedClass(env, url, htmlOptions).Ok?
    ensures Render(env, name, url, htmlOptions).Ok?
    ensures var e := Element(Render(env, name, url, htmlOptions).value, Get(htmlOptions, Sym("wrap_tag")));
            && (e.Tag? <==> Get(htmlOptions, Sym("active_disable")) == Bool(true) && Active(env, url, Get(htmlOptions, Sym("active"))))
            && (e.Tag? ==> e == Span(Text(name), Attrs(e)))
            && (e.Link? ==> e.content == Text(name) && e.href == url)
  {
    RenderUnfold(env, name, url, htmlOptions);
    var css := CallerComposedClass(env, url, htmlOptions).value;
    var attrs := LinkAttributes(Reject(htmlOptions, ActiveOptionKeys), css);
    var active := Active(env, url, Get(htmlOptions, Sym("active")));
    var disabled := Get(htmlOptions, Sym("active_disable")) == Bool(true) && active;
    var link := if disabled then Span(Text(name), attrs) else Link(Text(name), url, attrs);
    ElementOfWrap(Get(htmlOptions, Sym("wrap_tag")), css, link);
    LinkShape(name, url, attrs, disabled);
  }

  /** The element before any wrapping: a span exactly when disabled. */
  lemma LinkShape(name: string, url: string, attrs: Entries, disabled: bool)
    ensures var link := if disabled then Span(Text(name), attrs) else Link(Text(name), url, attrs);
            && (link.Tag? <==> disabled)
            && (link.Tag? ==> link == Span(Text(name), Attrs(link)))
            && (link.Link? ==> link.content == Text(name) && link.href == url)
            && Attrs(link) == attrs
  {
  }

  /** The wrapper, when there is one, holds the element and the class. */
  lemma WrapShape(wrapOption: Value, css: string, link: Markup)
    ensures Present(wrapOption) ==> Wrap(wrapOption, css, link)
                                    == Tag(wrapOption, [(Sym("class"), if Present(Str(css)) then Str(css) else Nil)], link)
    ensures !Present(wrapOption) ==> Wrap(wrapOption, css, link) == link
  {
  }

  /** A present `wrap_tag` wraps the element in that tag, carrying the same
      class as the element; without it nothing is wrapped. */
  lemma RenderWrap(env: Env, name: string, url: string, htmlOptions: Entries)
    requires CallerComposedClass(env, url, htmlOptions).Ok?
    ensures Render(env, name, url, htmlOptions).Ok?
    ensures var m := Render(env, name, url, htmlOptions).value;
            var wrapTag := Get(htmlOptions, Sym("wrap_tag"));
            && (Present(wrapTag)
                ==> m.Tag? && m.name == wrapTag && m.attrs == [(Sym("class"), Get(Attrs(m.content), Sym("class")))])
            && (!Present(wrapTag) ==> m.Link? || (m.Tag? && m.name == Sym("span") && m.content == Text(name)))
  {
    RenderUnfold(env, name, url, htmlOptions);
    var wrapTag := Get(htmlOptions, Sym("wrap_tag"));
    var css := CallerComposedClass(env, url, htmlOptions).value;
    var attrs := LinkAttributes(Reject(htmlOptions, ActiveOptionKeys), css);
    var active := Active(env, url, Get(htmlOptions, Sym("active")));
    var disabled := Get(htmlOptions, Sym("active_disable")) == Bool(true) && active;
    var link := if disabled then Span(Text(name), attrs) else Link(Text(name), url, attrs);
    LinkShape(name, url, attrs, disabled);
    ClassAttribute(env, url, htmlOptions);
    WrapClass(wrapTag, css, link);
  }

  /** The wrapper carries the class of the element it holds. */
  lemma WrapClass(wrapTag: Value, css: string, link: Markup)
    requires Get(Attrs(link), Sym("class")) == if Present(Str(css)) then Str(css) else Nil
    ensures var m := Wrap(wrapTag, css, link);
            && (Present(wrapTag)
                ==> m.Tag? && m.name == wrapTag && m.attrs == [(Sym("class"), Get(Attrs(m.content), Sym("class")))])
            && (!Present(wrapTag) ==> m == link)
  {
    WrapShape(wrapTag, css, link);
  }

  /** The class attribute the link gets. */
  lemma ClassAttribute(env: Env, url: string, htmlOptions: Entries)
    requires CallerComposedClass(env, url, htmlOptions).Ok?
    ensures var css := CallerComposedClass(env, url, htmlOptions).value;
            Get(LinkAttributes(Reject(htmlOptions, ActiveOptionKeys), css), Sym("class"))
              == (if Present(Str(css)) then Str(css) else Nil)
  {
    var css := CallerComposedClass(env, url, htmlOptions).value;
    ComposedClassStripped(env, url, htmlOptions);
    LinkAttributesMeaning(Reject(htmlOptions, ActiveOptionKeys), css, Sym("class"));
    PresentTrimmed(css);
  }

  /** An Integer `class_active` is appended as a character code, and what
      the class String takes depends on its encoding: with no caller class
      `nil.to_s + ' '` is US-ASCII and takes only the codes 0 to 255, while a
      caller's String class takes any code point but the surrogates. */
  lemma IntegerActiveClass(env: Env, url: string, htmlOptions: Entries, n: int)
    requires Active(env, url, Get(htmlOptions, Sym("active")))
    requires Get(htmlOptions, Sym("class_active")) == Int(n)
    ensures Get(htmlOptions, Sym("class")) == Nil
            ==> (CallerComposedClass(env, url, htmlOptions) == Raise(RangeError) <==> !(0 <= n < 0x100))
    ensures Get(htmlOptions, Sym("class")).Str?
            ==> (CallerComposedClass(env, url, htmlOptions) == Raise(RangeError)
                 <==> !(0 <= n < 0xD800 || 0xE000 <= n < 0x11_0000))
  {
  }

  /** The composed class has nothing left to strip. */
  lemma ComposedClassStripped(env: Env, url: string, htmlOptions: Entries)
    requires CallerComposedClass(env, url, htmlOptions).Ok?
    ensures Trimmed(CallerComposedClass(env, url, htmlOptions).value)
  {
    StripMeaning(Concat(ToS(Get(htmlOptions, Sym("class"))) + " ", AsciiToS(Get(htmlOptions, Sym("class"))), ChosenClass(env, url, htmlOptions)).value);
  }

  /** The element's attributes: the composed class when it is not empty,
      none of the active options, and every other caller option unchanged. */
  lemma RenderAttributes(env: Env, name: string, url: string, htmlOptions: Entries, k: Value)
    requires CallerComposedClass(env, url, htmlOptions).Ok?
    ensures Render(env, name, url, htmlOptions).Ok?
    ensures var css := CallerComposedClass(env, url, htmlOptions).value;
            var attrs := Attrs(Element(Render(env, name, url, htmlOptions).value, Get(htmlOptions, Sym("wrap_tag"))));
            && (HasKey(attrs, Sym("class")) <==> css != [])
            && Get(attrs, Sym("class")) == (if css != [] then Str(css) else Nil)
            && (k in ActiveOptionKeys ==> !HasKey(attrs, k))
            && (k !in ActiveOptionKeys && k != Sym("class") ==> Get(attrs, k) == Get(htmlOptions, k))
  {
    RenderUnfold(env, name, url, htmlOptions);
    var wrapTag := Get(htmlOptions, Sym("wrap_tag"));
    var css := CallerComposedClass(env, url, htmlOptions).value;
    var linkOptions := Reject(htmlOptions, ActiveOptionKeys);
    var attrs := LinkAttributes(linkOptions, css);
    var active := Active(env, url, Get(htmlOptions, Sym("active")));
    var disabled := Get(htmlOptions, Sym("active_disable")) == Bool(true) && active;
    var link := if disabled then Span(Text(name), attrs) else Link(Text(name), url, attrs);
    ElementOfWrap(wrapTag, css, link);
    LinkShape(name, url, attrs, disabled);
    ComposedClassStripped(env, url, htmlOptions);
    AttributesOf(htmlOptions, css, k);
  }

  /** `LinkAttributes` over the caller's Hash, key by key. */
  lemma AttributesOf(htmlOptions: Entries, css: string, k: Value)
    requires Trimmed(css)
    ensures var attrs := LinkAttributes(Reject(htmlOptions, ActiveOptionKeys), css);
            && (HasKey(attrs, Sym("class")) <==> css != [])
            && Get(attrs, Sym("class")) == (if css != [] then Str(css) else Nil)
            && (k in ActiveOptionKeys ==> !HasKey(attrs, k))
            && (k !in ActiveOptionKeys && k != Sym("class") ==> Get(attrs, k) == Get(htmlOptions, k))
  {
    var linkOptions := Reject(htmlOptions, ActiveOptionKeys);
    LinkAttributesMeaning(linkOptions, css, Sym("class"));
    LinkAttributesMeaning(linkOptions, css, k);
    HasKeyReject(htmlOptions, ActiveOptionKeys, k);
    if k !in ActiveOptionKeys {
      GetReject(htmlOptions, ActiveOptionKeys, k);
    }
  }

  /** With a plain caller class the element's class is the caller's class,
      one space, and the chosen class: `class: 'current'` on an active link
      gives "current active" (and the wrapper, if any, the same). */
  lemma RenderJoinsClasses(env: Env, name: string, url: string, htmlOptions: Entries, c: string, a: string)
    requires Get(htmlOptions, Sym("class")) == Str(c) && ChosenClass(env, url, htmlOptions) == Str(a)
    requires Trimmed(c) && Trimmed(a)
    ensures Render(env, name, url, htmlOptions).Ok?
    ensures var cls := if c == [] then a else if a == [] then c else c + " " + a;
            Get(Attrs(Element(Render(env, name, url, htmlOptions).value, Get(htmlOptions, Sym("wrap_tag")))), Sym("class"))
            == if cls == [] then Nil else Str(cls)
  {
    ComposeWith(env, url, htmlOptions, c, a);
    RenderAttributes(env, name, url, htmlOptions, Sym("class"));
  }

  // ---------------------------------------------------------------------
  // The rendering cases of test/active_link_to_test.rb, on the page `/root`

  /** The request of those cases: the page `/root`, with a parser that keeps
      a plain path as it is. */
  predicate OnRoot(env: Env) {
    env.fullpath == "/root" && env.uriPath("/root") == "/root" && env.uriPath("/other") == "/other"
  }

  lemma RootActive(env: Env)
    requires OnRoot(env)
    ensures Active(env, "/root", Nil) && !Active(env, "/other", Nil)
  {
    InclusiveMeaning(env, "/root", Nil);
    InclusiveMeaning(env, "/other", Nil);
    assert Chomp("/root", '/') == "/root" && Chomp("/other", '/') == "/other";
  }

  /** With no class options the classes are "active" and "" (the cases
      of `active_link_to_class`, with `class_active: 'on'` and
      `class_inactive: 'off'` as well). */
  lemma RootClasses(env: Env)
    requires OnRoot(env)
    ensures ChosenClass(env, "/root", []) == Str("active")
    ensures ChosenClass(env, "/other", []) == Str("")
    ensures ChosenClass(env, "/root", [(Sym("class_active"), Str("on"))]) == Str("on")
    ensures ChosenClass(env, "/other", [(Sym("class_inactive"), Str("off"))]) == Str("off")
  {
    RootActive(env);
  }

  lemma ComposedRootClasses(env: Env)
    requires OnRoot(env)
    ensures CallerComposedClass(env, "/root", []) == Ok("active")
    ensures CallerComposedClass(env, "/other", []) == Ok("")
  {
    RootClasses(env);
    assert ToS(Get([], Sym("class"))) == "";
    assert Trimmed("active");
    ComposeWith(env, "/root", [], "", "active");
    ComposeWith(env, "/other", [], "", "");
  }

  /** `<a class="active" href="/root">label</a>` */
  lemma ActiveRootLink(env: Env)
    requires OnRoot(env)
    ensures Render(env, "label", "/root", []) == Ok(Link(Text("label"), "/root", [(Sym("class"), Str("active"))]))
  {
    RootActive(env);
    ComposedRootClasses(env);
    assert Reject([], ActiveOptionKeys) == [];
    RenderUnfold(env, "label", "/root", []);
    assert Trimmed("active");
    PresentTrimmed("active");
    assert LinkAttributes([], "active") == [(Sym("class"), Str("active"))];
  }

  /** `<a href="/other">label</a>` */
  lemma InactiveOtherLink(env: Env)
    requires OnRoot(env)
    ensures Render(env, "label", "/other", []) == Ok(Link(Text("label"), "/other", []))
  {
    RootActive(env);
    ComposedRootClasses(env);
    assert Reject([], ActiveOptionKeys) == [];
    RenderUnfold(env, "label", "/other", []);
    assert LinkAttributes([], "") == [];
  }

  /** The caller's class `c` and the chosen class `a`, joined by one space,
      or whichever of the two is not empty. */
  lemma ComposeWith(env: Env, url: string, htmlOptions: Entries, c: string, a: string)
    requires ChosenClass(env, url, htmlOptions) == Str(a) && ToS(Get(htmlOptions, Sym("class"))) == c
    requires Trimmed(c) && Trimmed(a)
    ensures CallerComposedClass(env, url, htmlOptions) == Ok(if c == [] then a else if a == [] then c else c + " " + a)
  {
    StripJoin(c, a);
  }
}
