/** How the four revisions' matchers relate: where they agree, and the
    requests on which a later revision changed the answer. */
module Compare {
  import opened Ruby
  import opened Rails
  import Legacy = LegacyActiveLinkTo
  import Helper = ActiveLinkHelper
  import V2 = ActiveLinkTo
  import Simple = SimpleActiveLinkTo

  /** The path conditions' string core: with `p` the full path up to its
      query, continuing `u` with `/` or `?` in the full path is continuing
      it with `/` in `p`. */
  lemma BoundaryAgrees(f: string, u: string)
    requires '?' !in u
    ensures var p := Before(f, '?');
            (f == u || StartsWith(f, u + "/") || StartsWith(f, u + "?"))
            <==> (p == u || StartsWith(p, u + "/"))
  {
    var p := Before(f, '?');
    if f == u || StartsWith(f, u + "/") || StartsWith(f, u + "?") {
      BoundaryToPath(f, u);
    }
    if p == u || StartsWith(p, u + "/") {
      BoundaryFromPath(f, u);
    }
  }

  lemma BoundaryToPath(f: string, u: string)
    requires '?' !in u
    requires f == u || StartsWith(f, u + "/") || StartsWith(f, u + "?")
    ensures Before(f, '?') == u || StartsWith(Before(f, '?'), u + "/")
  {
    if f == u {
      BeforeAppend(u, [], '?');
      assert u + [] == u;
    } else if StartsWith(f, u + "/") {
      var rest := f[|u| + 1..];
      assert f == (u + "/") + rest;
      BeforeAppend(u + "/", rest, '?');
    } else {
      var rest := f[|u| + 1..];
      assert f == u + ("?" + rest);
      BeforeAppend(u, "?" + rest, '?');
    }
  }

  lemma BoundaryFromPath(f: string, u: string)
    requires Before(f, '?') == u || StartsWith(Before(f, '?'), u + "/")
    ensures f == u || StartsWith(f, u + "/") || StartsWith(f, u + "?")
  {
    var p := Before(f, '?');
    if p == u && f != u {
      assert |p| < |f|;
      assert f[..|u| + 1] == u + "?";
    } else if p != u {
      assert f[..|u| + 1] == p[..|u| + 1];
    }
  }

  /** `:inclusive` in the latest two revisions agrees for a plain link that
      does not end in `/`, when `path` is `fullpath` without its query and
      neither decoding nor parsing changes the paths involved. */
  lemma InclusiveAgrees(env: Env, url: string)
    requires PathWithoutQuery(env)
    requires url != [] && '?' !in url && '#' !in url && !EndsWith(url, "/")
    requires env.uriPath(url) == url && env.unescape(url) == url && env.unescape(env.path) == env.path
    ensures Simple.Active(env, url, Sym("inclusive")) == Ok(V2.Active(env, url, Sym("inclusive")))
  {
    Simple.UrlPathOfPath(url, []);
    assert url + [] == url;
    Simple.InclusiveMeansSubtree(env, url, Sym("inclusive"));
    V2.InclusiveMeaning(env, url, Sym("inclusive"));
    assert Chomp(url, '/') == url;
    BoundaryAgrees(env.fullpath, url);
  }

  /** A request path with a trailing `/` under `:exclusive`: the regular
      expression of `ActiveLinkTo` accepts it for the link without the
      slash, the decoded comparison of `SimpleActiveLinkTo` does not. */
  lemma ExclusiveSlashDiffers(env: Env, url: string)
    requires url != [] && '?' !in url && '#' !in url
    requires env.fullpath == url + "/" && env.path == url + "/"
    requires env.uriPath(url) == url && env.unescape(url) == url && env.unescape(env.path) == env.path
    ensures Simple.Active(env, url, Sym("exclusive")) == Ok(false)
    ensures V2.Active(env, url, Sym("exclusive"))
  {
    Simple.UrlPathOfPath(url, []);
    assert url + [] == url;
    V2.ExclusiveMeaning(env, url);
  }

  /** `:self_only` of the first revision is `:exclusive` of `ActiveLinkTo`
      when parsing leaves the link as it is. */
  lemma SelfOnlyIsExclusive(env: Env, url: string, options: Entries)
    requires Get(options, Sym("when")) == Sym("self_only")
    requires env.uriPath(url) == url
    ensures Legacy.Active(env, url, Hash(options)) == Ok(V2.Active(env, url, Sym("exclusive")))
  {
    Legacy.SelfOnlyMeaning(env, url, options);
    V2.ExclusiveMeaning(env, url);
  }

  /** `:self` of the two first revisions is one prefix test, when the link
      is relative and has no query string. */
  lemma SelfRevisionsAgree(env: Env, url: string, options: Entries)
    requires Get(options, Sym("when")) == Sym("self")
    requires !StartsWith(url, "http://") && !StartsWith(url, "https://") && '?' !in url
    ensures Legacy.Active(env, url, Hash(options)) == Ok(Helper.IsActive(env, url, Sym("self")))
  {
    Legacy.SelfMeaning(env, url, options);
    Helper.SelfMeaning(env, url);
    Helper.StripHostKeeps(url);
    BeforeAppend(url, [], '?');
    assert url + [] == url;
  }

  /** The segment boundary the later revisions added: on `/root_path` the
      link `/root` is active in the first two revisions and not in the last
      two. */
  lemma SiblingPath(env: Env, url: string, suffix: string, options: Entries)
    requires url != [] && '?' !in url && '#' !in url && !EndsWith(url, "/")
    requires !StartsWith(url, "http://") && !StartsWith(url, "https://")
    requires suffix != [] && suffix[0] != '/' && suffix[0] != '?'
    requires env.fullpath == url + suffix && env.path == url + suffix
    requires env.uriPath(url) == url && env.unescape(url) == url && env.unescape(env.path) == env.path
    requires !HasKey(options, Sym("when"))
    ensures Legacy.Active(env, url, Hash(options)) == Ok(true)
    ensures Helper.IsActive(env, url, Sym("self"))
    ensures !V2.Active(env, url, Nil)
    ensures Simple.Active(env, url, Nil) == Ok(false)
  {
    var f := env.fullpath;
    assert StartsWith(f, url) by {
      assert f[..|url|] == url;
    }
    Legacy.SelfMeaning(env, url, options);
    Helper.SelfMeaning(env, url);
    Helper.StripHostKeeps(url);
    BeforeAppend(url, [], '?');
    assert url + [] == url;
    assert Chomp(url, '/') == url;
    V2.InclusiveNoSibling(env, url, Nil, suffix);
    Simple.UrlPathOfPath(url, []);
    Simple.InclusiveNoSibling(env, url, Nil, suffix);
  }

  /** An Array condition of two lists means the same in the first revision
      and in `ActiveLinkTo`, and `SimpleActiveLinkTo` accepts at least as
      much. */
  lemma ArrayRevisions(env: Env, url: string, options: Entries, controllers: seq<Value>, actions: seq<Value>)
    requires Get(options, Sym("when")) == List([List(controllers), List(actions)])
    ensures Legacy.Active(env, url, Hash(options))
         == Ok(V2.Active(env, url, List([List(controllers), List(actions)])))
    ensures V2.Active(env, url, List([List(controllers), List(actions)]))
         ==> Simple.Active(env, url, List([List(controllers), List(actions)])) == Ok(true)
  {
    Legacy.ArrayLists(env, url, options, controllers, actions);
  }

  /** `SimpleActiveLinkTo` alone reads `[['users', 'index']]` as a list of
      controller and action pairs. */
  lemma PairListOnlyInSimple(env: Env, url: string, c: string, a: string)
    requires Controller(env) == Str(c) && Action(env) == Str(a)
    ensures Simple.Active(env, url, List([List([List([Str(c), Str(a)])])])) == Ok(true)
    ensures !V2.Active(env, url, List([List([List([Str(c), Str(a)])])]))
  {
    var pair := List([Str(c), Str(a)]);
    assert Simple.PairNamesRoute(env, pair);
    assert ToArray(List([pair]))[0] == pair;
  }
}
