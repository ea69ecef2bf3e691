# active_link_to, four revisions of the active-link helper

`active_link_to` is a Rails view helper. It renders a navigation link and
marks it "active" (a CSS class, and in the latest revision
`aria-current="page"`) when the current request is the page the link points
to. The repository keeps four revisions of the helper:

| revision | source | Dafny module |
|---|---|---|
| `ActiveLinkHelper` (the oldest) | lib/active_link_helper.rb | `ActiveLinkHelper` |
| `ActiveLinkTo` (first) | lib/active_link_to.rb | `LegacyActiveLinkTo` |
| `ActiveLinkTo` (second) | lib/active_link_to/active_link_to.rb | `ActiveLinkTo` |
| `SimpleActiveLinkTo` (latest) | lib/simple_active_link_to/simple_active_link_to.rb | `SimpleActiveLinkTo` |

Each revision has the same parts:

- `is_active_link?`, which decides from the link, a condition and the
  request whether the link is active;
- the chooser of the active or inactive class;
- the option and class handling of the helper itself;
- the choice of the element: a link, a span, or a wrapper tag.

Each revision is modelled in its own module.

- **Shared modules.**
  - `Ruby` models the Ruby values the helpers handle, `nil` included.
  - `Outcome` models the exceptions the code can raise, as `Raise(NoMethodError | TypeError | RangeError)`.
  - `Ruby` also holds the few core and ActiveSupport methods used: `blank?`, `to_s`, `strip`, `lstrip`, `split(..).first`, `Array()`, `flatten`, `member?`, and Hash reading, writing, deleting and splitting.
  - `Regex` states what each regular expression built from `Regexp.escape(url)` means as a plain prefix or equality condition.
  - `Rails` holds the request (`Env`) and the markup that `link_to` and `content_tag` would produce.
  - `LinkOptions` holds the class chooser and the parameter match that the two latest revisions share word for word.
- **State that the Ruby code updates in place.**
  - The memo `@is_active_link` of the latest revision is the `memo` field of the class `SimpleActiveLinkTo.View`. The cache reuses only true answers: `||=` recomputes a cached false, and stores whatever it computes.
  - The `link` String and the `options` Hash that the oldest revision changes in place are `StringObject` and `HashObject` objects, and its methods declare them in `modifies`.
  - The loops over the caller's Hash are methods with loop invariants: `Ruby.SplitByKeys` and the Hash walk of `ActiveLinkHelper.IsActiveLink`.
- **Functions and methods.** Every helper is also a function, for example `ActiveLinkTo.Render`. The method that models the code step by step is proved equal to that function, and the properties are lemmas about the functions.
- **Comparisons.** `Compare` relates the revisions' matchers: where they agree, and a request on which each change of behaviour shows.

## Model

| member | source | states |
|---|---|---|
| Ruby.SplitByKeys | lib/active_link_to/active_link_to.rb:24-32 | the `each` loop that copies each option into `active_options` or `link_options` yields exactly the pairs whose key is (is not) one of the listed keys, in order |
| Ruby.SelectRejectPartition | lib/active_link_to/active_link_to.rb:26-32 | together the two Hashes hold every option of the caller exactly once |
| Ruby.SelectListed | lib/active_link_to/active_link_to.rb:27-28 | every key of `active_options` is one of the active keys |
| Ruby.RejectUnlisted | lib/active_link_to/active_link_to.rb:29-30 | no key of `link_options` is one of the active keys |
| Ruby.StripJoin | lib/active_link_to/active_link_to.rb:34-36 | joining two trimmed classes with a space and stripping gives the one that is not empty, or both one space apart |
| Ruby.SplitFirstToS | lib/active_link_helper.rb:12 | `link.to_s.split('?').first.to_s` is the link up to its first `?`, including the case where `split` gives nil |
| Regex.SubtreePatternMeaning | lib/active_link_to.rb:145 | `^url(\/?.*)?$` matches exactly the paths that start with `url` |
| Regex.SubtreePrefixMeaning | lib/active_link_helper.rb:15 | without the end anchor, `^url(\/?.*)?` also matches exactly the paths that start with `url` |
| Regex.PagePatternMeaning | lib/active_link_to/active_link_to.rb:83 | `^url\/?(\?.*)?$` matches `url`, `url/`, and either of them followed by a query |
| Regex.SegmentPatternMeaning | lib/active_link_to/active_link_to.rb:81 | `^url(\/.*\|\?.*)?$` matches `url` and the paths that continue it with `/` or `?` |
| LinkOptions.DefaultClassFor | lib/active_link_to/active_link_to.rb:54-60 | without `class_active`/`class_inactive` the class is "active" or "" |
| LinkOptions.ParamsMatchAppend | lib/active_link_to/active_link_to.rb:97-100 | an empty Hash condition always matches, and one more pair adds exactly its string comparison |
| SimpleActiveLinkTo.View.IsActiveLink | lib/simple_active_link_to/simple_active_link_to.rb:81-118 | the answer is the matcher's; the memo keeps only answers the matcher gives; a new answer is stored and errors are not |
| SimpleActiveLinkTo.View.ActiveLinkToClass | lib/simple_active_link_to/simple_active_link_to.rb:59-65 | the class chosen through the memo is the one chosen from the matcher's answer, and the memo afterwards holds that answer for `(url, options[:active])` |
| SimpleActiveLinkTo.View.SimpleActiveLinkTo | lib/simple_active_link_to/simple_active_link_to.rb:25-52 | the step-by-step helper returns what `Render` specifies, keeps the memo consistent, and leaves the answer for `(url, html_options[:active])` stored in it |
| SimpleActiveLinkTo.UrlPathOfPath | lib/simple_active_link_to/simple_active_link_to.rb:86 | the link's path is the part before the first `#`, then before the first `?` |
| SimpleActiveLinkTo.FragmentAndQueryIgnored | lib/simple_active_link_to/simple_active_link_to.rb:86-91 | under nil, `:inclusive` and `:exclusive` a link with a query or fragment is active exactly when its bare path is |
| SimpleActiveLinkTo.EmptyLinkRaises | lib/simple_active_link_to/simple_active_link_to.rb:86 | the empty link makes the path conditions raise NoMethodError |
| SimpleActiveLinkTo.EqualPathsActive | lib/simple_active_link_to/simple_active_link_to.rb:87-91 | equal decoded link and request paths are active under all three path conditions |
| SimpleActiveLinkTo.InclusiveMeansSubtree | lib/simple_active_link_to/simple_active_link_to.rb:92-94 | under nil and `:inclusive` the request path is the link's path or continues it (less one trailing `/`) with `/` |
| SimpleActiveLinkTo.InclusiveNoSibling | lib/simple_active_link_to/simple_active_link_to.rb:92-94 | a request path that only shares a string prefix (`/root_path` for `/root`) is not active |
| SimpleActiveLinkTo.ExclusiveMeansEqual | lib/simple_active_link_to/simple_active_link_to.rb:95-96 | under `:exclusive` only the equal decoded path is active |
| SimpleActiveLinkTo.ExactKeepsQuery | lib/simple_active_link_to/simple_active_link_to.rb:98-99 | `:exact` compares the full path with its query, so a request with a query never matches a link without one |
| SimpleActiveLinkTo.ArrayWildcards | lib/simple_active_link_to/simple_active_link_to.rb:102-106 | `[]`, `[nil, nil]` and `[[], []]` match every route |
| SimpleActiveLinkTo.ArrayNamedRoute | lib/simple_active_link_to/simple_active_link_to.rb:102-109 | `['c', 'a']` is active exactly for controller c and action a (for a non-empty action) |
| SimpleActiveLinkTo.ArrayPairList | lib/simple_active_link_to/simple_active_link_to.rb:107-109 | a first element listing `[controller, action]` pairs is active exactly when the route is one of them |
| SimpleActiveLinkTo.ConstantConditions | lib/simple_active_link_to/simple_active_link_to.rb:110-115 | a Boolean is its own answer and the empty Hash always matches |
| SimpleActiveLinkTo.HashExamples | lib/simple_active_link_to/simple_active_link_to.rb:112-115 | parameters are compared as strings, and an absent parameter equals nil |
| SimpleActiveLinkTo.DefaultClasses | lib/simple_active_link_to/simple_active_link_to.rb:59-65 | without class options the class is "active" when active and "" otherwise |
| SimpleActiveLinkTo.CustomClasses | lib/simple_active_link_to/simple_active_link_to.rb:59-65 | a truthy `class_active` is the class of an active link and a truthy `class_inactive` that of an inactive one; with two different classes given, the class tells whether the link is active |
| SimpleActiveLinkTo.RenderShape | lib/simple_active_link_to/simple_active_link_to.rb:24-52 | `aria-current="page"` exactly on an active link; a span exactly for an active link with `active_disable: true`; `#` added only for an active link with `:hash`; the class is the caller's and the chosen class joined and stripped; no active option reaches the element, and every other caller option reaches it unchanged |
| SimpleActiveLinkTo.RenderJoinsClasses | lib/simple_active_link_to/simple_active_link_to.rb:38-40 | a caller class `c` and chosen class `a` become "c a" |
| SimpleActiveLinkTo.ActiveRootLink | lib/simple_active_link_to/simple_active_link_to.rb:38-52 | on `/root` a bare link to `/root` has class "active" and `aria-current="page"` |
| SimpleActiveLinkTo.DisabledRootLink | lib/simple_active_link_to/simple_active_link_to.rb:42-46 | with `active_disable: true` that link is a span with the same attributes |
| ActiveLinkTo.ActiveLinkTo | lib/active_link_to/active_link_to.rb:24-47 | the step-by-step helper returns what `Render` specifies, and it only reads the caller's Hash |
| ActiveLinkTo.InclusiveMeaning | lib/active_link_to/active_link_to.rb:80-81 | under nil and `:inclusive` the full path is the parsed link path (less one trailing `/`), or continues it with `/` or `?` |
| ActiveLinkTo.InclusiveNoSibling | lib/active_link_to/active_link_to.rb:80-81 | a full path that continues the link path with anything else is not active |
| ActiveLinkTo.ExclusiveMeaning | lib/active_link_to/active_link_to.rb:82-83 | under `:exclusive` the full path is the link path, at most one `/`, and at most a query |
| ActiveLinkTo.ExclusiveNoChild | lib/active_link_to/active_link_to.rb:82-83 | a page below the link is not active under `:exclusive` |
| ActiveLinkTo.ParsedPathOnly | lib/active_link_to/active_link_to.rb:77-85 | the path conditions see only the parsed path; `:exact` sees the link as given |
| ActiveLinkTo.ArraySingleNames | lib/active_link_to/active_link_to.rb:88-92 | a single name means the same as a list holding it |
| ActiveLinkTo.ArrayWildcards | lib/active_link_to/active_link_to.rb:88-92 | an empty half is a wildcard and both halves must match |
| ActiveLinkTo.ArrayListExamples | test/active_link_to_test.rb:76-82 | the listed Array conditions match route `controller#action` |
| ActiveLinkTo.ArraySingleExamples | test/active_link_to_test.rb:83-85 | the Array conditions with single names match it too |
| ActiveLinkTo.ArrayMismatchExamples | test/active_link_to_test.rb:87-88 | a wrong controller or action name does not match |
| ActiveLinkTo.ConstantAndHashConditions | lib/active_link_to/active_link_to.rb:93-100 | Booleans are constant; a Hash matches its parameters as strings; the empty Hash always matches |
| ActiveLinkTo.InclusiveExamples | test/active_link_to_test.rb:10-47 | the `:inclusive` and implied cases of the tests: `/root` on `/root`, `/root?param=test` and `/root/child/sub-child`, `/root/` on `/root/abc`, `/root?attr=example` on `/root?param=test`, and not `/root` on `/other` (the two similar-path cases are `ActiveLinkTo.SiblingExamples`) |
| ActiveLinkTo.SiblingExamples | test/active_link_to_test.rb:29-42 | `/root/a` is not active on `/root/abc`, and `/root/` is not active on `/root_path` |
| ActiveLinkTo.ExclusiveExamples | test/active_link_to_test.rb:49-63 | the `:exclusive` cases of the tests |
| ActiveLinkTo.RenderReads | lib/active_link_to/active_link_to.rb:26-39 | the options the rendering reads are the caller's own |
| ActiveLinkTo.LinkAttributesMeaning | lib/active_link_to/active_link_to.rb:34-39 | the class attribute is set exactly when the composed class is not empty, and no other key changes |
| ActiveLinkTo.RenderUnfold | lib/active_link_to/active_link_to.rb:24-47 | the rendering in terms of the caller's options |
| ActiveLinkTo.RenderElement | lib/active_link_to/active_link_to.rb:41-45 | a span exactly for an active link with `active_disable: true`; otherwise a link to the URL as given |
| ActiveLinkTo.RenderWrap | lib/active_link_to/active_link_to.rb:38-47 | a present `wrap_tag` wraps the element in that tag with the element's own class; without it the result is the link or its span, unwrapped |
| ActiveLinkTo.ClassAttribute | lib/active_link_to/active_link_to.rb:34-39 | the element's class is the composed class, or absent when that is blank |
| ActiveLinkTo.IntegerActiveClass | lib/active_link_to/active_link_to.rb:34-35 | an Integer `class_active` on an active link raises RangeError exactly when the class String cannot take that code: outside 0 to 255 with no caller class (US-ASCII), outside the non-surrogate code points with a caller's String class (UTF-8) |
| ActiveLinkTo.ComposedClassStripped | lib/active_link_to/active_link_to.rb:34-36 | the composed class has nothing left to strip |
| ActiveLinkTo.RenderAttributes | lib/active_link_to/active_link_to.rb:26-39 | the element has the class exactly when it is not empty, none of the active options, and every other option of the caller unchanged |
| ActiveLinkTo.RenderJoinsClasses | lib/active_link_to/active_link_to.rb:34-36 | a caller class `c` and chosen class `a` become "c a" on the element |
| ActiveLinkTo.ComposeWith | lib/active_link_to/active_link_to.rb:34-36 | the composed class is the one of `c` and `a` that is not empty, or both |
| ActiveLinkTo.RootActive | test/active_link_to_test.rb:100-106 | on `/root`, `/root` is active and `/other` is not |
| ActiveLinkTo.RootClasses | test/active_link_to_test.rb:91-98 | the four `active_link_to_class` cases: "active", "", "on", "off" |
| ActiveLinkTo.ComposedRootClasses | test/active_link_to_test.rb:100-107 | the composed classes on `/root`: "active" and "" |
| ActiveLinkTo.ActiveRootLink | test/active_link_to_test.rb:100-103 | `<a class="active" href="/root">label</a>` |
| ActiveLinkTo.InactiveOtherLink | test/active_link_to_test.rb:105-106 | `<a href="/other">label</a>` |
| LegacyActiveLinkTo.ActiveLinkTo | lib/active_link_to.rb:114-129 | the step-by-step helper on the cloned options returns what `Render` specifies, and it only reads the caller's Hash |
| LegacyActiveLinkTo.AddClass | lib/active_link_to.rb:121-123 | the class steps on the clone give what `ClassAttributes` specifies |
| LegacyActiveLinkTo.SelfMeaning | lib/active_link_to.rb:144-145 | under `:self` and nil the link is active exactly when the full path starts with it, with no boundary check |
| LegacyActiveLinkTo.SelfOnlyMeaning | lib/active_link_to.rb:146-147 | under `:self_only` the full path is the link, at most one `/`, and at most a query |
| LegacyActiveLinkTo.SelfOnlyNoChild | lib/active_link_to.rb:146-147 | a page below the link is not active under `:self_only` |
| LegacyActiveLinkTo.ArrayLists | lib/active_link_to.rb:150-154 | two lists: each must be empty or list the current name |
| LegacyActiveLinkTo.ArrayStringHalf | lib/active_link_to.rb:150-154 | a non-blank String half has no `member?` and raises, but only when the first half has matched |
| LegacyActiveLinkTo.ConstantConditions | lib/active_link_to.rb:143-159 | `true` and `false` are constant, and an unlisted Symbol is inactive |
| LegacyActiveLinkTo.OptionsMustBeHash | lib/active_link_to.rb:143 | `:active` options that are not a Hash make `options[:when]` raise |
| LegacyActiveLinkTo.DefaultClasses | lib/active_link_to.rb:133-139 | without `:active_class`/`:inactive_class` the class is "active" or "" |
| LegacyActiveLinkTo.CustomClasses | lib/active_link_to.rb:133-139 | a truthy `:active_class` or `:inactive_class` is used as given |
| LegacyActiveLinkTo.ClassAttributesMeaning | lib/active_link_to.rb:121-123 | the class is the caller's class plus " " and the active class (when not blank), left-stripped, and deleted when blank; other options are kept |
| LegacyActiveLinkTo.ClassJoin | lib/active_link_to.rb:121-123 | a caller class `c` and active class `a` become "c a", or `a` alone |
| LegacyActiveLinkTo.ClassAttributesKeep | lib/active_link_to.rb:121-123 | the class handling adds or removes no key but `:class` |
| LegacyActiveLinkTo.RenderElement | lib/active_link_to.rb:118-129 | a span exactly when `:disable_link` is `true`, active or not; otherwise a link to the URL; `:active` never reaches the attributes |
| LegacyActiveLinkTo.PlainLink | lib/active_link_to.rb:114-129 | a link without options has class "active" on its own page and below it, and no class elsewhere |
| LegacyActiveLinkTo.DisabledInactiveSpan | lib/active_link_to.rb:125-129 | `/other` with `:disable_link => true` on `/root` is inactive and still rendered as a span |
| LegacyActiveLinkTo.IntendedSpanOnlyWhenActive | lib/active_link_to.rb:30-31 | the corrected helper renders a span exactly when `:disable_link` is `true` and the link is active |
| LegacyActiveLinkTo.IntendedAgrees | lib/active_link_to.rb:125-129 | the corrected and the written helper differ only on a disabled link that is not active |
| ActiveLinkHelper.IsActiveLink | lib/active_link_helper.rb:10-34 | rewrites the caller's link in place and answers the matcher's `IsActive`; the Hash walk returns at the first matching route |
| ActiveLinkHelper.ActiveLink | lib/active_link_helper.rb:3-8 | changes the caller's link and options in place (the default class stays behind when the append raises) and returns what `Render` specifies |
| ActiveLinkHelper.StripHostMeaning | lib/active_link_helper.rb:11 | `scheme://host/rest` becomes `/rest` |
| ActiveLinkHelper.StripHostKeeps | lib/active_link_helper.rb:11 | a link without `http://` or `https://` is kept |
| ActiveLinkHelper.StripHostIdempotent | lib/active_link_helper.rb:11 | rewriting a rewritten link changes nothing |
| ActiveLinkHelper.SelfMeaning | lib/active_link_helper.rb:12-15 | `:self` is active exactly when the request URI starts with the link without host and query |
| ActiveLinkHelper.SelfOnlyMeaning | lib/active_link_helper.rb:16-17 | `:self_only` is the link's path, at most one `/`, and at most a query |
| ActiveLinkHelper.QueryIgnored | lib/active_link_helper.rb:11-12 | a query on the link does not change the path conditions |
| ActiveLinkHelper.NoValueInactive | lib/active_link_helper.rb:29-33 | nil, and any value of no listed kind, is inactive |
| ActiveLinkHelper.SingleRoute | lib/active_link_helper.rb:22-26 | a one-controller Hash is active exactly for that controller and its flattened actions |
| ActiveLinkHelper.AddedRoute | lib/active_link_helper.rb:22-26 | the Hash matches when any of its routes does |
| ActiveLinkHelper.AddClassMeaning | lib/active_link_helper.rb:4-6 | the class is the caller's class followed by " active" or nothing, absent when empty; other options are kept |
| ActiveLinkHelper.ClassMustBeString | lib/active_link_helper.rb:4-5 | a truthy class that is not a String makes the append raise and leaves the options as they were |
| ActiveLinkHelper.HrefLosesHost | lib/active_link_helper.rb:7-11 | the anchor of `scheme://host/rest` points at `/rest`, not at the link given |
| ActiveLinkHelper.IntendedHref | lib/active_link_helper.rb:7 | the corrected helper links to the link as given, with the same attributes, and equals the written one when the link has no host |
| Compare.BoundaryAgrees | test/test_helper.rb:15-18 | with `path` the full path up to its query, continuing the link with `/` or `?` in the full path is continuing it with `/` in `path` |
| Compare.InclusiveAgrees | lib/simple_active_link_to/simple_active_link_to.rb:92-94 | the latest revision's `:inclusive` equals that of lib/active_link_to/active_link_to.rb for a plain link without a trailing `/` |
| Compare.ExclusiveSlashDiffers | lib/simple_active_link_to/simple_active_link_to.rb:95-96 | a request path with a trailing `/` is `:exclusive`-active in the second `ActiveLinkTo` and not in the latest revision |
| Compare.SelfOnlyIsExclusive | lib/active_link_to.rb:146-147 | `:self_only` is the later `:exclusive` when parsing keeps the link |
| Compare.SelfRevisionsAgree | lib/active_link_helper.rb:15 | `:self` of the two oldest revisions is the same prefix test for a relative link without a query |
| Compare.SiblingPath | lib/active_link_to.rb:144-145 | on `/root_path` the link `/root` is active in the two oldest revisions and not in the two latest |
| Compare.ArrayRevisions | lib/active_link_to.rb:150-154 | an Array of two lists means the same in both `ActiveLinkTo` revisions, and the latest revision accepts at least as much |
| Compare.PairListOnlyInSimple | lib/simple_active_link_to/simple_active_link_to.rb:107-109 | only the latest revision reads `[['c', 'a']]` as a controller-and-action pair |

## Left out

- **Regular expressions the caller passes as a condition.** These are not interpreted. A Regexp is represented by its source, and `Env.regexMatches` answers whether it matches the full path.
- **The line anchors `^` and `$`.** They are read as the start and the end of the text. Ruby reads them per line, so a link or a request path containing a line break is not modelled.
- **Library calls the model does not follow.** `URI::parse(url).path`, `URI.parser.unescape` and `force_encoding(Encoding::BINARY)` are the request's functions `Env.uriPath` and `Env.unescape`. So a parse error, a nil path, and decoding of non-ASCII text are not modelled.
- **`url_for`, `link_to`, `content_tag` and `capture`.** They are not part of this model, and neither is HTML escaping. The link arrives as a string, the name as text, and the output is the `Markup` datatype. The `*args` and block argument handling is plumbing and is left out. So is the registration of each module into the view (`ActionView::Base.send :include`, `ActiveSupport.on_load`).
- **The three request paths.** `request.fullpath`, `request.original_fullpath` and `request.request_uri` are all one field, `Env.fullpath`. `request.path` is `Env.path`, and `Rails.PathWithoutQuery` states how the two relate where a comparison needs it.
- **Parameters.** They are a map from names to values, read the same by Symbol and String keys.
- **lib/active_link_to/configuration.rb.** Nothing in the modelled code reads it. Its defaults "active" and "" appear as literals.
- **Character classes.** `[[:space:]]` is ASCII whitespace only. `Inspect` does not escape characters inside strings.
- **`lstrip!` on a shared String.** When the caller's class String reaches `lstrip!` unchanged (the active class is blank), Ruby strips the caller's own String object, because `clone` copies the Hash shallowly. The model gives the same class value but does not model that String being changed.
- **Memo with a changing request.** The memo of `SimpleActiveLinkTo.View` belongs to a view whose request is fixed. Clearing it when the request changes is not modelled.
- **The Regexp cases of test/active_link_to_test.rb:65-74.** They are not stated, because `Env.regexMatches` answers a Regexp condition.
- **String encodings other than US-ASCII and UTF-8.** `Ruby.Concat` knows only whether the class String is US-ASCII (`Ruby.AsciiToS`) or UTF-8. A caller's class String is taken to be UTF-8 whatever its real encoding, and the `inspect` of an Array or a Hash is taken to be UTF-8 too. A US-ASCII class that turns binary after an Integer code from 128 to 255 keeps that byte as the character with the same code.
- ActiveLinkHelper.QueryIgnored: stated only for relative links and links with a path after the host. For `http://host?x=/a` the host stripping reaches into the query, so there the query does matter.
- **Frozen and non-String links and classes.** `ActiveLinkHelper` takes its link as a mutable String (`Ruby.StringObject`), so a frozen link, on which `gsub!` raises FrozenError, and a link that is not a String, on which `gsub!` raises NoMethodError (lib/active_link_helper.rb:11), cannot arise. Likewise a frozen class String that reaches `lstrip!` (lib/active_link_to.rb:123) would raise FrozenError, and the model does not track frozenness.
- Compare.InclusiveAgrees: stated for parsing and decoding that leave the paths unchanged, and for `path` being `fullpath` without its query (the relation the test helper's fake request keeps).

Behaviours of the code worth knowing, each stated by the member named:

- An empty link makes `url.split('#').first` nil in `SimpleActiveLinkTo`, and the next `split` raises NoMethodError (lib/simple_active_link_to/simple_active_link_to.rb:86, `SimpleActiveLinkTo.EmptyLinkRaises`).
- `SimpleActiveLinkTo` always sets `:class`, to "" when the caller's class and the chosen class are both empty (lib/simple_active_link_to/simple_active_link_to.rb:40, `SimpleActiveLinkTo.RenderShape`).
- `ActiveLinkHelper` changes the caller's objects: `active_link` writes the class into the caller's `options` (lib/active_link_helper.rb:4-6) and `is_active_link?` rewrites the caller's `link` with `gsub!` (lib/active_link_helper.rb:11), as `ActiveLinkHelper.ActiveLink` and `ActiveLinkHelper.IsActiveLink` state.
- The comments of lib/active_link_to.rb show `:active_link` and `:inactive_link` as class options (lines 91-95). The code reads `:active_class` and `:inactive_class` (`LegacyActiveLinkTo.DefaultClasses`).

## Findings

| source | as written | input that shows it | evidently intended | confidence | as-written member | corrected member |
|---|---|---|---|---|---|---|
| lib/active_link_to.rb:125-129 | the span replaces the link whenever `:disable_link` is `true` | request `/root`, link `/other`, `:active => { :disable_link => true }`: the link is inactive and is rendered as `<span>` | the span only for an active link, as the comment at lines 30-31 says and as lib/active_link_to/active_link_to.rb:41 later does | high, not executed | LegacyActiveLinkTo.DisabledInactiveSpan | LegacyActiveLinkTo.IntendedSpanOnlyWhenActive |
| lib/active_link_helper.rb:11 | `gsub!` rewrites the caller's link in place, and `active_link` then passes the rewritten link to `link_to` | `active_link('People', 'http://example.com/people', :self)` links to `/people` | strip the host only to compare the link with the request, and link to the link as given | medium, not executed | ActiveLinkHelper.HrefLosesHost | ActiveLinkHelper.IntendedHref |
