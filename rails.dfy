/** What the helpers take from the surrounding Rails view: the current
    request, the routing parameters, the library calls that are not part of
    this model, and the markup that `link_to` and `content_tag` build. */
module Rails {
  import opened Ruby

  /** The ambient request, plus the library functions the helpers call on it. */
  datatype Env = Env(
    path: string,                          // request.path
    fullpath: string,                      // request.fullpath, original_fullpath, request_uri
    params: map<string, Value>,            // params, with indifferent access
    unescape: string -> string,            // URI.parser.unescape
    uriPath: string -> string,             // URI::parse(url).path
    regexMatches: (string, string) -> bool // a user Regexp (by its source) matches a text
  )

  /** `params[key]`: Symbol and String keys name the same parameter. */
  function Param(env: Env, key: Value): Value {
    match key
    case Sym(n) => if n in env.params then env.params[n] else Nil
    case Str(n) => if n in env.params then env.params[n] else Nil
    case _ => Nil
  }

  function Controller(env: Env): Value {
    Param(env, Sym("controller"))
  }

  function Action(env: Env): Value {
    Param(env, Sym("action"))
  }

  /** The usual relation between the two paths: `path` is `fullpath` without
      its query string. */
  predicate PathWithoutQuery(env: Env) {
    env.path == Before(env.fullpath, '?')
  }

  /** The HTML the helpers hand back, before Rails escapes and prints it. */
  datatype Markup =
    | Text(text: string)
    | Link(content: Markup, href: string, attrs: Entries)   // link_to(content, href, attrs)
    | Tag(name: Value, attrs: Entries, content: Markup)     // content_tag(name, content, attrs)

  /** The attributes of the outermost element. */
  function Attrs(m: Markup): Entries {
    match m
    case Text(_) => []
    case Link(_, _, attrs) => attrs
    case Tag(_, attrs, _) => attrs
  }

  /** `content_tag(:span, content, attrs)` */
  function Span(content: Markup, attrs: Entries): Markup {
    Tag(Sym("span"), attrs, content)
  }
}
