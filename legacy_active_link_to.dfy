/** The first `ActiveLinkTo` revision: the options of the active state come
    as one `:active` Hash, path conditions are regular expressions over the
    link as given, and `:disable_link` turns the link into a span. */
module LegacyActiveLinkTo {
  import opened Ruby
  import opened Regex
  import opened Rails

  /** The `Array` branch: `options[:when][0]` and `options[:when][1]` are
      used as given; a blank half matches anything, any other half must
      answer `member?`, and the second half is only looked at when the first
      one matched. */
  function ArrayActive(env: Env, condition: seq<Value>): Outcome<bool> {
    match Listed(At(condition, 0), Controller(env))
    case Raise(e) => Raise(e)
    case Ok(matched) => if matched then Listed(At(condition, 1), Action(env)) else Ok(false)
  }

  /** `names.blank? || names.member?(x)` */
  function Listed(names: Value, x: Value): Outcome<bool> {
    if Blank(names) then Ok(true) else Member(names, x)
  }

  /** The `case options[:when]` of `is_active_link?`, once the condition is
      read.  A condition of no listed kind gives nil, read as false. */
  function Condition(env: Env, url: string, condition: Value): Outcome<bool> {
    match condition
    case Nil => Ok(FullMatch(SubtreePattern(url), env.fullpath))
    case Sym(n) =>
      if n == "self" then Ok(FullMatch(SubtreePattern(url), env.fullpath))
      else if n == "self_only" then Ok(FullMatch(PagePattern(url), env.fullpath))
      else Ok(false)
    case Regexp(src) => Ok(env.regexMatches(src, env.fullpath))
    case List(items) => ArrayActive(env, items)
    case Bool(t) => Ok(t)
    case _ => Ok(false)
  }

  /** `is_active_link?(url, options)`: `options[:when]` fails unless the
      options are a Hash. */
  function Active(env: Env, url: string, options: Value): Outcome<bool> {
    match Index(options, Sym("when"))
    case Raise(e) => Raise(e)
    case Ok(condition) => Condition(env, url, condition)
  }

  /** `active_class(url, options)`: `options[:active_class] || 'active'`
      or `options[:inactive_class] || ''`. */
  function ActiveClass(env: Env, url: string, options: Value): Outcome<Value> {
    match Active(env, url, options)
    case Raise(e) => Raise(e)
    case Ok(active) =>
      match Index(options, Sym(if active then "active_class" else "inactive_class"))
      case Raise(e) => Raise(e)
      case Ok(v) => Ok(Or(v, Str(if active then "active" else "")))
  }

  /** The `:active` options: `html_options.delete(:active) || {}`. */
  function ActiveOptions(htmlOptions: Entries): Value {
    Or(Get(htmlOptions, Sym("active")), Hash([]))
  }

  /** The class handling on the link's attributes `h`: `h[:class] ||= ''`,
      then `h[:class] += " #{css}"` unless `css` is blank, then a blank class
      is deleted and any other is `lstrip!`ped, which only a String has. */
  function ClassAttributes(h: Entries, css: Value): Outcome<Entries> {
    var h1 := if Truthy(Get(h, Sym("class"))) then h else Set(h, Sym("class"), Str(""));
    var added := if Present(css) then Append(Get(h1, Sym("class")), " " + ToS(css)) else Ok(Get(h1, Sym("class")));
    match added
    case Raise(e) => Raise(e)
    case Ok(cls) =>
      var h2 := if Present(css) then Set(h1, Sym("class"), cls) else h1;
      if Blank(cls) then Ok(Delete(h2, Sym("class")))
      else if cls.Str? then Ok(Set(h2, Sym("class"), Str(LStrip(cls.str))))
      else Raise(NoMethodError)
  }

  /** What the helper returns; `spanOnlyWhenActive` says whether
      `:disable_link` needs the link to be active as well. */
  function RenderAs(env: Env, name: string, url: string, htmlOptions: Entries, spanOnlyWhenActive: bool): Outcome<Markup> {
    var activeOptions := ActiveOptions(htmlOptions);
    match ActiveClass(env, url, activeOptions)
    case Raise(e) => Raise(e)
    case Ok(css) =>
      match ClassAttributes(Delete(htmlOptions, Sym("active")), css)
      case Raise(e) => Raise(e)
      case Ok(attrs) =>
        match Index(activeOptions, Sym("disable_link"))
        case Raise(e) => Raise(e)
        case Ok(disable) =>
          if disable == Bool(true) && (!spanOnlyWhenActive || Active(env, url, activeOptions) == Ok(true))
          then Ok(Span(Text(name), attrs))
          else Ok(Link(Text(name), url, attrs))
  }

  /** `active_link_to(name, url, html_options)` as written: `:disable_link`
      alone makes the span. */
  function Render(env: Env, name: string, url: string, htmlOptions: Entries): Outcome<Markup> {
    RenderAs(env, name, url, htmlOptions, false)
  }

  /** `active_link_to` as its documentation describes it: the span replaces
      the link only when the link is active. */
  function IntendedRender(env: Env, name: string, url: string, htmlOptions: Entries): Outcome<Markup> {
    RenderAs(env, name, url, htmlOptions, true)
  }

  /** The class handling of `active_link_to`, on the clone `h` of the
      caller's options. */
  method AddClass(h: Entries, css: Value) returns (r: Outcome<Entries>)
    ensures r == ClassAttributes(h, css)
  {
    var attrs := h;
    if !Truthy(Get(attrs, Sym("class"))) {
      attrs := Set(attrs, Sym("class"), Str(""));
    }
    if Present(css) {
      var added := Append(Get(attrs, Sym("class")), " " + ToS(css));
      if added.Raise? {
        return Raise(added.error);
      }
      attrs := Set(attrs, Sym("class"), added.value);
      assert Get(attrs, Sym("class")) == added.value by {
        GetSet(if Truthy(Get(h, Sym("class"))) then h else Set(h, Sym("class"), Str("")), Sym("class"), added.value, Sym("class"));
      }
    }
    var cls := Get(attrs, Sym("class"));
    if Blank(cls) {
      attrs := Delete(attrs, Sym("class"));
    } else if cls.Str? {
      attrs := Set(attrs, Sym("class"), Str(LStrip(cls.str)));
    } else {
      return Raise(NoMethodError);
    }
    return Ok(attrs);
  }

  /** `active_link_to(name, url, html_options)`, with `url` already produced
      by `url_for`.  The helper works on a clone of the caller's Hash. */
  method ActiveLinkTo(env: Env, name: string, url: string, htmlOptions: HashObject) returns (r: Outcome<Markup>)
    ensures r == Render(env, name, url, htmlOptions.entries)
  {
    var h := htmlOptions.entries;
    var activeOptions := Or(Get(h, Sym("active")), Hash([]));
    h := Delete(h, Sym("active"));
    var css := ActiveClass(env, url, activeOptions);
    if css.Raise? {
      return Raise(css.error);
    }
    var attrs := AddClass(h, css.value);
    if attrs.Raise? {
      return Raise(attrs.error);
    }
    var disable := Index(activeOptions, Sym("disable_link"));
    if disable.Raise? {
      return Raise(disable.error);
    }
    if disable.value == Bool(true) {
      r := Ok(Span(Text(name), attrs.value));
    } else {
      r := Ok(Link(Text(name), url, attrs.value));
    }
  }

  // ---------------------------------------------------------------------
  // What the matcher promises

  /** `:self` (and no condition) is a plain prefix test on the full path:
      `/people` is active on `/people/123`, and on `/peoples` too. */
  lemma SelfMeaning(env: Env, url: string, options: Entries)
    requires Get(options, Sym("when")) == Nil || Get(options, Sym("when")) == Sym("self")
    ensures Active(env, url, Hash(options)) == Ok(StartsWith(env.fullpath, url))
  {
    SubtreePatternMeaning(url, env.fullpath);
  }

  /** `:self_only` takes the link itself, then at most one `/`, then at
      most a query string. */
  lemma SelfOnlyMeaning(env: Env, url: string, options: Entries)
    requires Get(options, Sym("when")) == Sym("self_only")
    ensures var f := env.fullpath;
            Active(env, url, Hash(options))
            == Ok(f == url || f == url + "/" || StartsWith(f, url + "?") || StartsWith(f, url + "/?"))
  {
    PagePatternMeaning(url, env.fullpath);
  }

  /** So under `:self_only` a page below the link is not active:
      `/people` is not active on `/people/24`. */
  lemma SelfOnlyNoChild(env: Env, url: string, options: Entries, child: string)
    requires Get(options, Sym("when")) == Sym("self_only")
    requires env.fullpath == url + "/" + child
    requires child != [] && child[0] != '?'
    ensures Active(env, url, Hash(options)) == Ok(false)
  {
    SelfOnlyMeaning(env, url, options);
    ChildPathNotPage(env.fullpath, url, child);
  }

  lemma ChildPathNotPage(f: string, url: string, child: string)
    requires f == url + "/" + child
    requires child != [] && child[0] != '?'
    ensures !(f == url || f == url + "/" || StartsWith(f, url + "?") || StartsWith(f, url + "/?"))
  {
    StartsWithConcat(f, url, "?");
    StartsWithConcat(f, url, "/?");
    assert f[|url|..] == "/" + child;
    assert f[|url|..][..2] == "/" + [child[0]];
  }

  /** Two lists of names: each must list the current name or be empty. */
  lemma ArrayLists(env: Env, url: string, options: Entries, controllers: seq<Value>, actions: seq<Value>)
    requires Get(options, Sym("when")) == List([List(controllers), List(actions)])
    ensures Active(env, url, Hash(options))
         == Ok((controllers == [] || Controller(env) in controllers) && (actions == [] || Action(env) in actions))
  {
  }

  /** A half given as a single String has no `member?`: unless it is blank
      it raises, but only when it is reached. */
  lemma ArrayStringHalf(env: Env, url: string, options: Entries, controllers: seq<Value>, action: string)
    requires Get(options, Sym("when")) == List([List(controllers), Str(action)])
    requires exists i :: 0 <= i < |action| && !IsSpace(action[i])
    ensures controllers == [] || Controller(env) in controllers
            ==> Active(env, url, Hash(options)) == Raise(NoMethodError)
    ensures controllers != [] && Controller(env) !in controllers
            ==> Active(env, url, Hash(options)) == Ok(false)
  {
  }

  /** `true` and `false` are constant, and a Symbol other than `:self` and
      `:self_only` is never active. */
  lemma ConstantConditions(env: Env, url: string, options: Entries, n: string)
    requires Get(options, Sym("when")) == Bool(true) || Get(options, Sym("when")) == Bool(false)
             || (Get(options, Sym("when")) == Sym(n) && n != "self" && n != "self_only")
    ensures Active(env, url, Hash(options)) == Ok(Get(options, Sym("when")) == Bool(true))
  {
  }

  /** The `:active` options must be a Hash: `options[:when]` raises on
      anything else the caller passes. */
  lemma OptionsMustBeHash(env: Env, url: string, options: Value)
    requires !options.Hash? && !options.Nil?
    ensures Active(env, url, options).Raise?
    ensures options.Str? || options.Sym? || options.Int? || options.List?
            ==> Active(env, url, options) == Raise(TypeError)
  {
  }

  /** Without `:active_class` and `:inactive_class` the class is "active"
      or nothing; the `:active_link` and `:inactive_link` keys of the
      documentation's examples are not read. */
  lemma DefaultClasses(env: Env, url: string, options: Entries)
    requires !HasKey(options, Sym("active_class")) && !HasKey(options, Sym("inactive_class"))
    requires Active(env, url, Hash(options)).Ok?
    ensures ActiveClass(env, url, Hash(options))
         == Ok(Str(if Active(env, url, Hash(options)).value then "active" else ""))
  {
  }

  /** A truthy `:active_class` or `:inactive_class` is used as given. */
  lemma CustomClasses(env: Env, url: string, options: Entries)
    requires Active(env, url, Hash(options)).Ok?
    ensures var active := Active(env, url, Hash(options)).value;
            var key := Sym(if active then "active_class" else "inactive_class");
            Truthy(Get(options, key)) ==> ActiveClass(env, url, Hash(options)) == Ok(Get(options, key))
  {
  }

  // ---------------------------------------------------------------------
  // What the rendered link promises

  /** The class handling on a String class `c` (or none) and a String
      class `a` from `active_class`: the attribute is the left-stripped join
      of the two, and absent when that is blank; every other attribute
      is kept. */
  lemma ClassAttributesMeaning(h: Entries, c: string, a: string, k: Value)
    requires Get(h, Sym("class")) == Str(c) || (c == [] && !Truthy(Get(h, Sym("class"))))
    requires k != Sym("class")
    ensures var joined := c + (if Present(Str(a)) then " " + a else "");
            && ClassAttributes(h, Str(a)).Ok?
            && Get(ClassAttributes(h, Str(a)).value, Sym("class"))
               == (if Blank(Str(joined)) then Nil else Str(LStrip(joined)))
            && (HasKey(ClassAttributes(h, Str(a)).value, Sym("class")) <==> Present(Str(joined)))
            && Get(ClassAttributes(h, Str(a)).value, k) == Get(h, k)
  {
    var cls := Sym("class");
    var h1 := if Truthy(Get(h, cls)) then h else Set(h, cls, Str(""));
    DefaultedClass(h, c, k);
    var joined := c + (if Present(Str(a)) then " " + a else "");
    var h2 := if Present(Str(a)) then Set(h1, cls, Str(joined)) else h1;
    GetSet(h1, cls, Str(joined), cls);
    GetSet(h1, cls, Str(joined), k);
    HasKeySet(h1, cls, Str(joined), cls);
    FinishedClass(h2, joined, k);
    ClassAttributesSteps(h, c, a);
  }

  /** `ClassAttributes` step by step, for a String class `a`. */
  lemma ClassAttributesSteps(h: Entries, c: string, a: string)
    requires Get(h, Sym("class")) == Str(c) || (c == [] && !Truthy(Get(h, Sym("class"))))
    ensures var cls := Sym("class");
            var h1 := if Truthy(Get(h, cls)) then h else Set(h, cls, Str(""));
            var joined := c + (if Present(Str(a)) then " " + a else "");
            var h2 := if Present(Str(a)) then Set(h1, cls, Str(joined)) else h1;
            ClassAttributes(h, Str(a)) == Ok(if Blank(Str(joined)) then Delete(h2, cls) else Set(h2, cls, Str(LStrip(joined))))
  {
    var cls := Sym("class");
    var h1 := if Truthy(Get(h, cls)) then h else Set(h, cls, Str(""));
    GetSet(h, cls, Str(""), cls);
    assert Get(h1, cls) == Str(c);
    assert ToS(Str(a)) == a;
    if !Present(Str(a)) {
      assert c + "" == c;
    }
  }

  /** `h[:class] ||= ''` leaves the class `c` (or "") and every other key. */
  lemma DefaultedClass(h: Entries, c: string, k: Value)
    requires Get(h, Sym("class")) == Str(c) || (c == [] && !Truthy(Get(h, Sym("class"))))
    requires k != Sym("class")
    ensures var h1 := if Truthy(Get(h, Sym("class"))) then h else Set(h, Sym("class"), Str(""));
            Get(h1, Sym("class")) == Str(c) && Get(h1, k) == Get(h, k) && HasKey(h1, Sym("class"))
  {
    var cls := Sym("class");
    GetSet(h, cls, Str(""), cls);
    GetSet(h, cls, Str(""), k);
    HasKeySet(h, cls, Str(""), cls);
  }

  /** The last step: a blank class is deleted, any other left-stripped. */
  lemma FinishedClass(h2: Entries, joined: string, k: Value)
    requires Get(h2, Sym("class")) == Str(joined) && HasKey(h2, Sym("class"))
    requires k != Sym("class")
    ensures var r := if Blank(Str(joined)) then Delete(h2, Sym("class")) else Set(h2, Sym("class"), Str(LStrip(joined)));
            && Get(r, Sym("class")) == (if Blank(Str(joined)) then Nil else Str(LStrip(joined)))
            && (HasKey(r, Sym("class")) <==> Present(Str(joined)))
            && Get(r, k) == Get(h2, k)
  {
    var cls := Sym("class");
    GetDelete(h2, cls, cls);
    GetDelete(h2, cls, k);
    HasKeyDelete(h2, cls, cls);
    GetSet(h2, cls, Str(LStrip(joined)), cls);
    GetSet(h2, cls, Str(LStrip(joined)), k);
    HasKeySet(h2, cls, Str(LStrip(joined)), cls);
  }

  /** With classes free of leading whitespace, the attribute is the
      caller's class and the active class joined by one space: `a` alone
      when the caller gave none. */
  lemma ClassJoin(h: Entries, c: string, a: string)
    requires Get(h, Sym("class")) == Str(c) || (c == [] && !Truthy(Get(h, Sym("class"))))
    requires c == [] || !IsStripped(c[0])
    requires a != [] && !IsStripped(a[0])
    ensures ClassAttributes(h, Str(a)).Ok?
    ensures Get(ClassAttributes(h, Str(a)).value, Sym("class")) == Str(if c == [] then a else c + " " + a)
  {
    ClassAttributesMeaning(h, c, a, Sym("active"));
    LeftStripJoin(c, a);
  }

  /** The left-stripped join behind `ClassJoin`. */
  lemma LeftStripJoin(c: string, a: string)
    requires c == [] || !IsStripped(c[0])
    requires a != [] && !IsStripped(a[0])
    ensures Present(Str(a)) && Present(Str(c + (" " + a)))
    ensures LStrip(c + (" " + a)) == if c == [] then a else c + " " + a
  {
    assert !IsSpace(a[0]);
    var joined := c + (" " + a);
    assert joined[|c| + 1] == a[0];
    if c == [] {
      assert joined[1..] == a;
    } else {
      assert joined[0] == c[0];
      assert joined == c + " " + a;
    }
  }

  /** The three steps `Render` takes, once each has succeeded. */
  lemma RenderUnfold(env: Env, name: string, url: string, htmlOptions: Entries, options: Entries,
                     css: Value, attrs: Entries, spanOnlyWhenActive: bool)
    requires ActiveOptions(htmlOptions) == Hash(options)
    requires ActiveClass(env, url, Hash(options)) == Ok(css)
    requires ClassAttributes(Delete(htmlOptions, Sym("active")), css) == Ok(attrs)
    ensures Active(env, url, Hash(options)).Ok?
    ensures RenderAs(env, name, url, htmlOptions, spanOnlyWhenActive)
         == Ok(if Get(options, Sym("disable_link")) == Bool(true)
                  && (!spanOnlyWhenActive || Active(env, url, Hash(options)).value)
               then Span(Text(name), attrs) else Link(Text(name), url, attrs))
  {
  }

  /** The rendered element: a span exactly when `:disable_link` is `true`,
      active or not, and otherwise a link to `url`; the `:active` options
      never reach its attributes. */
  lemma RenderElement(env: Env, name: string, url: string, htmlOptions: Entries, options: Entries)
    requires ActiveOptions(htmlOptions) == Hash(options)
    requires Render(env, name, url, htmlOptions).Ok?
    ensures var m := Render(env, name, url, htmlOptions).value;
            && (m.Tag? <==> Get(options, Sym("disable_link")) == Bool(true))
            && (m.Link? ==> m.href == url && m.content == Text(name))
            && !HasKey(Attrs(m), Sym("active"))
  {
    var css := ActiveClass(env, url, Hash(options)).value;
    var rest := Delete(htmlOptions, Sym("active"));
    var attrs := ClassAttributes(rest, css).value;
    RenderUnfold(env, name, url, htmlOptions, options, css, attrs, false);
    ClassAttributesKeep(rest, css, Sym("active"));
    HasKeyDelete(htmlOptions, Sym("active"), Sym("active"));
  }

  /** The class handling adds no key but `:class`. */
  lemma ClassAttributesKeep(h: Entries, css: Value, k: Value)
    requires ClassAttributes(h, css).Ok?
    requires k != Sym("class")
    ensures HasKey(ClassAttributes(h, css).value, k) <==> HasKey(h, k)
  {
    var cls := Sym("class");
    var h1 := if Truthy(Get(h, cls)) then h else Set(h, cls, Str(""));
    HasKeySet(h, cls, Str(""), k);
    var added := if Present(css) then Append(Get(h1, cls), " " + ToS(css)) else Ok(Get(h1, cls));
    var h2 := if Present(css) then Set(h1, cls, added.value) else h1;
    HasKeySet(h1, cls, added.value, k);
    HasKeyDelete(h2, cls, k);
    if !Blank(added.value) {
      HasKeySet(h2, cls, Str(LStrip(added.value.str)), k);
    }
  }

  /** The documentation's first example: with no options a link is
      classed "active" on its own page and below it, and has no class
      elsewhere. */
  lemma PlainLink(env: Env, name: string, url: string)
    ensures StartsWith(env.fullpath, url)
            ==> Render(env, name, url, []) == Ok(Link(Text(name), url, [(Sym("class"), Str("active"))]))
    ensures !StartsWith(env.fullpath, url)
            ==> Render(env, name, url, []) == Ok(Link(Text(name), url, []))
  {
    SelfMeaning(env, url, []);
    assert ActiveOptions([]) == Hash([]);
    if StartsWith(env.fullpath, url) {
      SoleClass("active");
      RenderUnfold(env, name, url, [], [], Str("active"), [(Sym("class"), Str("active"))], false);
    } else {
      NoClass();
      RenderUnfold(env, name, url, [], [], Str(""), [], false);
    }
  }

  /** With no class of the caller's, a class `a` without leading
      whitespace becomes the whole attribute. */
  lemma SoleClass(a: string)
    requires a != [] && !IsStripped(a[0])
    ensures ClassAttributes([], Str(a)) == Ok([(Sym("class"), Str(a))])
  {
    var cls := Sym("class");
    var h1 := [(cls, Str(""))];
    assert Set([], cls, Str("")) == h1;
    assert Get(h1, cls) == Str("");
    LeftStripJoin("", a);
    var joined := "" + (" " + a);
    assert Append(Get(h1, cls), " " + ToS(Str(a))) == Ok(Str(joined));
    var h2 := [(cls, Str(joined))];
    assert Set(h1, cls, Str(joined)) == h2;
    assert Set(h2, cls, Str(a)) == [(cls, Str(a))];
  }

  /** No class and an empty active class make no class attribute. */
  lemma NoClass()
    ensures ClassAttributes([], Str("")) == Ok([])
  {
    var h1 := [(Sym("class"), Str(""))];
    assert Set([], Sym("class"), Str("")) == h1;
    assert Delete(h1, Sym("class")) == [];
  }

  /** On a page where it is not active, a link with `:disable_link` still
      becomes a span: `/other` on `/root` renders as `<span>`. */
  lemma DisabledInactiveSpan(env: Env, name: string)
    requires env.fullpath == "/root"
    ensures var h := [(Sym("active"), Hash([(Sym("disable_link"), Bool(true))]))];
            && Active(env, "/other", ActiveOptions(h)) == Ok(false)
            && Render(env, name, "/other", h) == Ok(Span(Text(name), []))
  {
    var options := [(Sym("disable_link"), Bool(true))];
    var h := [(Sym("active"), Hash(options))];
    assert ActiveOptions(h) == Hash(options);
    SelfMeaning(env, "/other", options);
    assert !StartsWith("/root", "/other") by {
      assert "/root"[1] != "/other"[1];
    }
    assert ActiveClass(env, "/other", Hash(options)) == Ok(Str(""));
    assert Delete(h, Sym("active")) == [];
    NoClass();
    RenderUnfold(env, name, "/other", h, options, Str(""), [], false);
  }

  /** The intended helper makes a span exactly when `:disable_link` is
      `true` and the link is active. */
  lemma IntendedSpanOnlyWhenActive(env: Env, name: string, url: string, htmlOptions: Entries, options: Entries)
    requires ActiveOptions(htmlOptions) == Hash(options)
    requires IntendedRender(env, name, url, htmlOptions).Ok?
    ensures var m := IntendedRender(env, name, url, htmlOptions).value;
            && (m.Tag? <==> Get(options, Sym("disable_link")) == Bool(true) && Active(env, url, Hash(options)) == Ok(true))
            && (m.Link? ==> m.href == url && m.content == Text(name))
  {
    var css := ActiveClass(env, url, Hash(options)).value;
    var attrs := ClassAttributes(Delete(htmlOptions, Sym("active")), css).value;
    RenderUnfold(env, name, url, htmlOptions, options, css, attrs, true);
  }

  /** The two differ only on a link that is disabled and not active. */
  lemma IntendedAgrees(env: Env, name: string, url: string, htmlOptions: Entries, options: Entries)
    requires ActiveOptions(htmlOptions) == Hash(options)
    requires Active(env, url, Hash(options)) == Ok(true) || Get(options, Sym("disable_link")) != Bool(true)
    ensures IntendedRender(env, name, url, htmlOptions) == Render(env, name, url, htmlOptions)
  {
  }
}
