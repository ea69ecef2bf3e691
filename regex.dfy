/** The regular expressions the helpers build around `Regexp.escape(url)`,
    and what each one means as a plain string condition.

    `^` and `$` are taken as the start and the end of the text, and `.` as
    any character: Ruby reads them per line, which is the same thing for a
    request path, since a request target cannot contain a line break. */
module Regex {
  import opened Ruby

  datatype Re =
    | Lit(text: string)          // Regexp.escape(text): the text itself
    | AnyText                    // .*
    | Cat(left: Re, right: Re)   // left right
    | Alt(left: Re, right: Re)   // left|right
    | Opt(body: Re)              // (body)?

  /** `r` matches the whole of `s`. */
  predicate Matches(r: Re, s: string) {
    match r
    case Lit(t) => s == t
    case AnyText => true
    case Cat(a, b) => exists i :: 0 <= i <= |s| && Matches(a, s[..i]) && Matches(b, s[i..])
    case Alt(a, b) => Matches(a, s) || Matches(b, s)
    case Opt(a) => s == [] || Matches(a, s)
  }

  /** `s.match(/^r$/)` */
  predicate FullMatch(r: Re, s: string) {
    Matches(r, s)
  }

  /** `s.match(/^r/)`: some prefix of `s` matches. */
  predicate PrefixMatch(r: Re, s: string) {
    exists i :: 0 <= i <= |s| && Matches(r, s[..i])
  }

  /** `link(\/?.*)?` */
  function SubtreePattern(link: string): Re {
    Cat(Lit(link), Opt(Cat(Opt(Lit("/")), AnyText)))
  }

  /** `link\/?(\?.*)?` */
  function PagePattern(link: string): Re {
    Cat(Lit(link), Cat(Opt(Lit("/")), Opt(Cat(Lit("?"), AnyText))))
  }

  /** `link(\/.*|\?.*)?` */
  function SegmentPattern(link: string): Re {
    Cat(Lit(link), Opt(Alt(Cat(Lit("/"), AnyText), Cat(Lit("?"), AnyText))))
  }

  /** A literal followed by `r` matches `s` when `s` starts with the literal
      and `r` matches the rest. */
  lemma CatLit(u: string, r: Re, s: string)
    ensures Matches(Cat(Lit(u), r), s) <==> StartsWith(s, u) && Matches(r, s[|u|..])
  {
    if Matches(Cat(Lit(u), r), s) {
      var i :| 0 <= i <= |s| && Matches(Lit(u), s[..i]) && Matches(r, s[i..]);
      assert s[..i] == u;
    }
    if StartsWith(s, u) && Matches(r, s[|u|..]) {
      assert Matches(Lit(u), s[..|u|]);
    }
  }

  /** `(\?.*)?` matches the empty text and every text that starts with `?`. */
  lemma QueryTail(t: string)
    ensures Matches(Opt(Cat(Lit("?"), AnyText)), t) <==> t == [] || StartsWith(t, "?")
  {
    CatLit("?", AnyText, t);
  }

  /** `link(\/?.*)?$` holds exactly of the texts that start with `link`. */
  lemma SubtreePatternMeaning(link: string, s: string)
    ensures FullMatch(SubtreePattern(link), s) <==> StartsWith(s, link)
  {
    CatLit(link, Opt(Cat(Opt(Lit("/")), AnyText)), s);
    if StartsWith(s, link) {
      var t := s[|link|..];
      if t != [] {
        assert Matches(Opt(Lit("/")), t[..0]);
        assert Matches(AnyText, t[0..]);
      }
    }
  }

  /** Without the end anchor, `^link(\/?.*)?` is the same plain prefix test. */
  lemma SubtreePrefixMeaning(link: string, s: string)
    ensures PrefixMatch(SubtreePattern(link), s) <==> StartsWith(s, link)
  {
    if PrefixMatch(SubtreePattern(link), s) {
      var i :| 0 <= i <= |s| && Matches(SubtreePattern(link), s[..i]);
      SubtreePatternMeaning(link, s[..i]);
      assert s[..i][..|link|] == s[..|link|];
    }
    if StartsWith(s, link) {
      SubtreePatternMeaning(link, s);
      assert s[..|s|] == s;
    }
  }

  /** `\/?(\?.*)?` matches the empty text, a lone `/`, and the texts that
      start with `?` or with `/?`. */
  lemma PageTail(t: string)
    ensures Matches(Cat(Opt(Lit("/")), Opt(Cat(Lit("?"), AnyText))), t)
        <==> t == [] || t == "/" || StartsWith(t, "?") || StartsWith(t, "/?")
  {
    var q := Opt(Cat(Lit("?"), AnyText));
    QueryTail(t);
    if t != [] {
      QueryTail(t[1..]);
    }
    if Matches(Cat(Opt(Lit("/")), q), t) {
      var i :| 0 <= i <= |t| && Matches(Opt(Lit("/")), t[..i]) && Matches(q, t[i..]);
      if i != 0 {
        assert |t[..i]| == i && t[..i] != [];
        assert Matches(Lit("/"), t[..i]);
        assert t[..i] == "/";
        assert i == 1 && t[0] == '/';
        if t[1..] != [] {
          assert t[..2] == "/?";
        }
      }
    }
    if t == [] || StartsWith(t, "?") {
      assert Matches(Opt(Lit("/")), t[..0]);
      assert t[0..] == t;
    } else if t == "/" || StartsWith(t, "/?") {
      assert t[..1] == "/" by {
        if t != "/" {
          assert t[..2] == "/?";
          assert t[..1] == t[..2][..1];
        }
      }
      assert Matches(Opt(Lit("/")), t[..1]);
      if t != "/" {
        assert t[..2] == "/?";
        assert t[1..][..1] == t[..2][1..];
      }
    }
  }

  /** `^link\/?(\?.*)?$` holds of `link` itself, of `link/`, and of either
      followed by a query string. */
  lemma PagePatternMeaning(link: string, s: string)
    ensures FullMatch(PagePattern(link), s)
        <==> s == link || s == link + "/" || StartsWith(s, link + "?") || StartsWith(s, link + "/?")
  {
    var tail := Cat(Opt(Lit("/")), Opt(Cat(Lit("?"), AnyText)));
    CatLit(link, tail, s);
    StartsWithConcat(s, link, "?");
    StartsWithConcat(s, link, "/?");
    if StartsWith(s, link) {
      var t := s[|link|..];
      PageTail(t);
      assert s == link + t;
    }
    if s == link + "/" {
      assert s[..|link|] == link;
    }
  }

  /** `^link(\/.*|\?.*)?$` holds of `link` itself and of the texts that
      continue it with `/` or `?`. */
  lemma SegmentPatternMeaning(link: string, s: string)
    ensures FullMatch(SegmentPattern(link), s)
        <==> s == link || StartsWith(s, link + "/") || StartsWith(s, link + "?")
  {
    var tail := Alt(Cat(Lit("/"), AnyText), Cat(Lit("?"), AnyText));
    CatLit(link, Opt(tail), s);
    StartsWithConcat(s, link, "/");
    StartsWithConcat(s, link, "?");
    if StartsWith(s, link) {
      var t := s[|link|..];
      CatLit("/", AnyText, t);
      CatLit("?", AnyText, t);
      assert s == link + t;
    }
  }
}
