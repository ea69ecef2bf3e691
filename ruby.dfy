/** Ruby values and the few core-library and ActiveSupport operations the
    link helpers rely on: truthiness, `blank?`, `to_s`, `strip`, `split`,
    `Array(...)`, `flatten`, `member?` and Hash reading and writing.  */
module Ruby {

  /** A Ruby object, as far as the helpers look at it. */
  datatype Value =
    | Nil
    | Bool(truth: bool)
    | Int(n: int)
    | Str(str: string)
    | Sym(name: string)
    | Regexp(source: string)
    | List(items: seq<Value>)
    | Hash(entries: seq<(Value, Value)>)

  /** A Ruby Hash: its key/value pairs in insertion order. */
  type Entries = seq<(Value, Value)>

  /** The exceptions the modelled code can raise. */
  datatype Exception = NoMethodError | TypeError | RangeError

  /** What evaluating a Ruby expression gives: a value or a raised exception. */
  datatype Outcome<+T> = Ok(value: T) | Raise(error: Exception)

  /** Everything but `nil` and `false` is truthy. */
  predicate Truthy(v: Value) {
    !(v.Nil? || v == Bool(false))
  }

  /** `a || b` */
  function Or(a: Value, b: Value): Value {
    if Truthy(a) then a else b
  }

  // ---------------------------------------------------------------------
  // Strings

  predicate StartsWith(s: string, prefix: string) {
    |prefix| <= |s| && s[..|prefix|] == prefix
  }

  predicate EndsWith(s: string, suffix: string) {
    |suffix| <= |s| && s[|s| - |suffix|..] == suffix
  }

  /** The ASCII members of `[[:space:]]`, which ActiveSupport's `blank?` skips. */
  predicate IsSpace(c: char) {
    c == ' ' || c == '\t' || c == '\n' || c == '\U{000B}' || c == '\U{000C}' || c == '\r'
  }

  /** What `String#strip` and `String#lstrip` remove: whitespace and NUL. */
  predicate IsStripped(c: char) {
    c == '\0' || IsSpace(c)
  }

  /** `s` has nothing to strip at either end. */
  predicate Trimmed(s: string) {
    s == [] || (!IsStripped(s[0]) && !IsStripped(s[|s| - 1]))
  }

  /** `s.lstrip` */
  function LStrip(s: string): string {
    if s != [] && IsStripped(s[0]) then LStrip(s[1..]) else s
  }

  /** `s.rstrip` */
  function RStrip(s: string): string {
    if s != [] && IsStripped(s[|s| - 1]) then RStrip(s[..|s| - 1]) else s
  }

  /** `s.strip` */
  function Strip(s: string): string {
    RStrip(LStrip(s))
  }

  /** `s.chomp(c)`: drops one trailing `c`. */
  function Chomp(s: string, c: char): string {
    if s != [] && s[|s| - 1] == c then s[..|s| - 1] else s
  }

  /** The part of `s` before the first `c` (all of `s` when there is none). */
  function Before(s: string, c: char): (r: string)
    ensures StartsWith(s, r) && c !in r
    ensures |r| < |s| ==> s[|r|] == c
  {
    if s == [] || s[0] == c then [] else [s[0]] + Before(s[1..], c)
  }

  /** `s.split(c).first`: Ruby's `split` drops trailing empty fields, so the
      result is `nil` exactly when `s` has no character other than `c`. */
  function SplitFirst(s: string, c: char): Value {
    if forall i :: 0 <= i < |s| ==> s[i] == c then Nil else Str(Before(s, c))
  }

  /** `Integer#to_s` */
  function Decimal(n: int): string {
    if n < 0 then "-" + Digits(-n) else Digits(n)
  }

  function Digits(n: nat): string {
    if n < 10 then ["0123456789"[n]] else Digits(n / 10) + ["0123456789"[n % 10]]
  }

  function Join(parts: seq<string>, sep: string): string {
    if parts == [] then ""
    else if |parts| == 1 then parts[0]
    else parts[0] + sep + Join(parts[1..], sep)
  }

  /** `v.inspect` in the format of Ruby before 3.4 (string escapes left out). */
  function Inspect(v: Value): string {
    match v
    case Nil => "nil"
    case Bool(t) => if t then "true" else "false"
    case Int(n) => Decimal(n)
    case Str(s) => "\"" + s + "\""
    case Sym(n) => ":" + n
    case Regexp(src) => "/" + src + "/"
    case List(xs) => "[" + Join(seq(|xs|, i requires 0 <= i < |xs| => Inspect(xs[i])), ", ") + "]"
    case Hash(es) =>
      "{" + Join(seq(|es|, i requires 0 <= i < |es| => Inspect(es[i].0) + "=>" + Inspect(es[i].1)), ", ") + "}"
  }

  /** `v.to_s`, which string interpolation also uses. */
  function ToS(v: Value): string {
    match v
    case Nil => ""
    case Str(s) => s
    case Sym(n) => n
    case Regexp(src) => "(?-mix:" + src + ")"
    case _ => Inspect(v)
  }

  /** ActiveSupport's `blank?`. */
  predicate Blank(v: Value) {
    match v
    case Nil => true
    case Bool(t) => !t
    case Int(_) => false
    case Str(s) => forall i :: 0 <= i < |s| ==> IsSpace(s[i])
    case Sym(n) => n == ""
    case Regexp(_) => false
    case List(xs) => xs == []
    case Hash(es) => es == []
  }

  /** ActiveSupport's `present?`. */
  predicate Present(v: Value) {
    !Blank(v)
  }

  /** `v + t` for a String `t`. */
  function Append(v: Value, t: string): Outcome<Value> {
    match v
    case Str(s) => Ok(Str(s + t))
    case List(_) => Raise(TypeError)
    case Int(_) => Raise(TypeError)
    case _ => Raise(NoMethodError)
  }

  /** Whether `v.to_s` is a US-ASCII String: `nil`, `true`, `false` and
      Integers always, a Symbol or a Regexp when its text is ASCII.  A String
      is taken to be UTF-8, and so is the `inspect` of an Array or a Hash. */
  predicate AsciiToS(v: Value) {
    match v
    case Str(_) => false
    case List(_) => false
    case Hash(_) => false
    case _ => forall i :: 0 <= i < |ToS(v)| ==> ToS(v)[i] < 128 as char
  }

  /** `s << v` on a String `s`, US-ASCII when `ascii` and UTF-8 otherwise: a
      String is appended, an Integer is appended as the character with that
      code, and anything else is refused.  A US-ASCII String takes only the
      codes 0 to 255 (from 128 on it turns binary and takes the raw byte);
      a UTF-8 String takes every code point but the surrogates. */
  function Concat(s: string, ascii: bool, v: Value): Outcome<string> {
    match v
    case Str(t) => Ok(s + t)
    case Int(n) =>
      if ascii then
        if 0 <= n < 0x100 then Ok(s + [n as char]) else Raise(RangeError)
      else if 0 <= n < 0xD800 || 0xE000 <= n < 0x11_0000 then Ok(s + [n as char])
      else Raise(RangeError)
    case _ => Raise(TypeError)
  }

  // ---------------------------------------------------------------------
  // Arrays

  /** `xs[i]`, which is `nil` past the end. */
  function At(xs: seq<Value>, i: nat): Value {
    if i < |xs| then xs[i] else Nil
  }

  /** `Array(v)` and `[*v]`: nil gives `[]`, an Array itself, a Hash its
      pairs, anything else a one-element Array. */
  function ToArray(v: Value): seq<Value> {
    match v
    case Nil => []
    case List(xs) => xs
    case Hash(es) => seq(|es|, i requires 0 <= i < |es| => List([es[i].0, es[i].1]))
    case _ => [v]
  }

  /** `[v].flatten` */
  function Flat(v: Value): seq<Value>
    decreases v
  {
    match v
    case List(_) => FlatFrom(v, 0)
    case _ => [v]
  }

  /** The flattening of `v.items[k..]`. */
  function FlatFrom(v: Value, k: nat): seq<Value>
    requires v.List?
    decreases v, |v.items| - k
  {
    if k >= |v.items| then [] else Flat(v.items[k]) + FlatFrom(v, k + 1)
  }

  /** `coll.member?(x)`: only Arrays and Hashes (by key) answer it. */
  function Member(coll: Value, x: Value): Outcome<bool> {
    match coll
    case List(xs) => Ok(x in xs)
    case Hash(es) => Ok(HasKey(es, x))
    case _ => Raise(NoMethodError)
  }

  // ---------------------------------------------------------------------
  // Hashes

  predicate HasKey(h: Entries, k: Value) {
    exists i :: 0 <= i < |h| && h[i].0 == k
  }

  /** Ruby keeps the keys of a Hash distinct. */
  predicate UniqueKeys(h: Entries) {
    forall i, j :: 0 <= i < j < |h| ==> h[i].0 != h[j].0
  }

  /** `h[k]`: the value stored under `k`, or nil. */
  function Get(h: Entries, k: Value): (r: Value)
    ensures !HasKey(h, k) ==> r == Nil
    ensures HasKey(h, k) ==> exists i :: 0 <= i < |h| && h[i] == (k, r)
  {
    if h == [] then Nil
    else if h[0].0 == k then h[0].1
    else Get(h[1..], k)
  }

  /** `h[k] = v`: replaces the value in place, or appends a new pair. */
  function Set(h: Entries, k: Value, v: Value): Entries {
    if h == [] then [(k, v)]
    else if h[0].0 == k then [(k, v)] + h[1..]
    else [h[0]] + Set(h[1..], k, v)
  }

  /** `h.delete(k)` (the value it returns is `Get(h, k)`). */
  function Delete(h: Entries, k: Value): Entries {
    if h == [] then []
    else if h[0].0 == k then Delete(h[1..], k)
    else [h[0]] + Delete(h[1..], k)
  }

  /** `value[key]` for a Symbol key: a Hash looks the key up; Strings,
      Symbols, Integers and Arrays refuse a Symbol index; other objects have
      no `[]`. */
  function Index(value: Value, key: Value): Outcome<Value> {
    match value
    case Hash(es) => Ok(Get(es, key))
    case Str(_) => Raise(TypeError)
    case Sym(_) => Raise(TypeError)
    case Int(_) => Raise(TypeError)
    case List(_) => Raise(TypeError)
    case _ => Raise(NoMethodError)
  }

  /** The pairs of `h` whose key is one of `keys`, in order. */
  function Select(h: Entries, keys: seq<Value>): Entries {
    if h == [] then []
    else Select(h[..|h| - 1], keys) + (if h[|h| - 1].0 in keys then [h[|h| - 1]] else [])
  }

  /** The pairs of `h` whose key is none of `keys`, in order. */
  function Reject(h: Entries, keys: seq<Value>): Entries {
    if h == [] then []
    else Reject(h[..|h| - 1], keys) + (if h[|h| - 1].0 !in keys then [h[|h| - 1]] else [])
  }

  /** The `each` loop with which a helper divides the caller's options: a
      pair whose key is in `keys` is copied (`h[k] = v`) into the first Hash,
      any other pair into the second. */
  method SplitByKeys(options: HashObject, keys: seq<Value>) returns (listed: Entries, others: Entries)
    requires UniqueKeys(options.entries)
    ensures listed == Select(options.entries, keys)
    ensures others == Reject(options.entries, keys)
  {
    var h := options.entries;
    listed, others := [], [];
    var i := 0;
    while i < |h|
      invariant 0 <= i <= |h|
      invariant listed == Select(h[..i], keys)
      invariant others == Reject(h[..i], keys)
    {
      var (k, v) := h[i];
      assert h[..i + 1] == h[..i] + [h[i]];
      assert !HasKey(h[..i], k) by {
        forall j | 0 <= j < i ensures h[..i][j].0 != k {
          assert h[..i][j] == h[j];
        }
      }
      if k in keys {
        SelectKeys(h[..i], keys, k);
        SetAbsent(listed, k, v);
        listed := Set(listed, k, v);
      } else {
        RejectKeys(h[..i], keys, k);
        SetAbsent(others, k, v);
        others := Set(others, k, v);
      }
      i := i + 1;
    }
    assert h[..|h|] == h;
  }

  /** A Hash object that a caller owns and a helper may change in place. */
  class HashObject {
    var entries: Entries

    constructor (entries: Entries)
      ensures this.entries == entries
    {
      this.entries := entries;
    }
  }

  /** A String object that a caller owns and a helper may change in place. */
  class StringObject {
    var value: string

    constructor (value: string)
      ensures this.value == value
    {
      this.value := value;
    }
  }

  // ---------------------------------------------------------------------
  // Lemmas

  /** `s.lstrip` is the suffix of `s` left after its leading whitespace. */
  lemma {:induction false} LStripMeaning(s: string)
    ensures var r := LStrip(s);
            && |r| <= |s| && r == s[|s| - |r|..]
            && (forall i :: 0 <= i < |s| - |r| ==> IsStripped(s[i]))
            && (r == [] || !IsStripped(r[0]))
  {
    if s != [] && IsStripped(s[0]) {
      var r := LStrip(s[1..]);
      LStripMeaning(s[1..]);
      assert s[1..][|s| - 1 - |r|..] == s[|s| - |r|..];
      assert forall i :: 1 <= i < |s| - |r| ==> s[i] == s[1..][i - 1];
    }
  }

  /** `s.rstrip` is the prefix of `s` left after its trailing whitespace. */
  lemma {:induction false} RStripMeaning(s: string)
    ensures var r := RStrip(s);
            && |r| <= |s| && r == s[..|r|]
            && (forall i :: |r| <= i < |s| ==> IsStripped(s[i]))
            && (r == [] || !IsStripped(r[|r| - 1]))
  {
    if s != [] && IsStripped(s[|s| - 1]) {
      var r := RStrip(s[..|s| - 1]);
      RStripMeaning(s[..|s| - 1]);
      assert s[..|s| - 1][..|r|] == s[..|r|];
      assert forall i :: |r| <= i < |s| - 1 ==> s[i] == s[..|s| - 1][i];
    }
  }

  /** Stripping leaves a string with no whitespace at either end, and keeps
      every character between the first and the last non-whitespace one. */
  lemma StripMeaning(s: string)
    ensures Trimmed(Strip(s))
    ensures Strip(s) == [] <==> forall i :: 0 <= i < |s| ==> IsStripped(s[i])
  {
    var l := LStrip(s);
    var r := RStrip(l);
    LStripMeaning(s);
    RStripMeaning(l);
    if r != [] {
      assert l[0] == r[0];
    }
    if l != [] {
      assert l[0] == s[|s| - |l|];
      assert !IsStripped(l[0]);
      assert r != [];
    }
  }

  /** Joining with a space and stripping: two words with no surrounding
      whitespace come out joined by exactly one space, and an empty word
      leaves the other one alone. */
  lemma StripJoin(a: string, b: string)
    requires Trimmed(a) && Trimmed(b)
    ensures Strip(a + " " + b) == if a == [] then b else if b == [] then a else a + " " + b
  {
    var s := a + " " + b;
    if a == [] {
      assert s == [' '] + b;
      assert s[1..] == b;
      assert LStrip(s) == LStrip(b) == b;
      RStripClean(b);
    } else {
      assert LStrip(s) == s;
      if b == [] {
        assert s == a + [' '];
        assert s[..|s| - 1] == a;
        RStripClean(a);
      } else {
        RStripClean(s);
      }
    }
  }

  lemma RStripClean(s: string)
    requires s == [] || !IsStripped(s[|s| - 1])
    ensures RStrip(s) == s
  {
  }

  /** Ruby's `s.split(c).first.to_s` is exactly the part before the first `c`. */
  lemma {:induction false} SplitFirstToS(s: string, c: char)
    ensures ToS(SplitFirst(s, c)) == Before(s, c)
  {
    if forall i :: 0 <= i < |s| ==> s[i] == c {
      if s != [] {
        assert s[0] == c;
      }
    }
  }

  /** When `a` has no `c`, the first `c` of `a + b` is the first `c` of `b`. */
  lemma {:induction false} BeforeAppend(a: string, b: string, c: char)
    requires c !in a
    ensures Before(a + b, c) == a + Before(b, c)
  {
    if a != [] {
      assert (a + b)[1..] == a[1..] + b;
      BeforeAppend(a[1..], b, c);
      assert a == [a[0]] + a[1..];
    } else {
      assert a + b == b;
    }
  }

  /** When `a` has a `c`, what follows `a` does not matter to `Before`. */
  lemma {:induction false} BeforePrefix(a: string, b: string, c: char)
    requires c in a
    ensures Before(a + b, c) == Before(a, c)
  {
    if a[0] != c {
      assert (a + b)[1..] == a[1..] + b;
      BeforePrefix(a[1..], b, c);
    }
  }

  /** A string that does not start with the separator has a first field. */
  lemma SplitFirstLeading(s: string, c: char)
    requires s != [] && s[0] != c
    ensures SplitFirst(s, c) == Str(Before(s, c))
  {
  }

  /** `s` starts with `a + b` exactly when it starts with `a` and the rest
      starts with `b`. */
  lemma StartsWithConcat(s: string, a: string, b: string)
    ensures StartsWith(s, a + b) <==> StartsWith(s, a) && StartsWith(s[|a|..], b)
  {
    if StartsWith(s, a + b) {
      assert s[..|a|] == (a + b)[..|a|];
      assert s[|a|..][..|b|] == s[|a|..|a| + |b|] == (a + b)[|a|..];
    }
    if StartsWith(s, a) && StartsWith(s[|a|..], b) {
      assert s[..|a| + |b|] == s[..|a|] + s[|a|..][..|b|];
    }
  }

  /** The keys of `Select(h, keys)` all come from `h`. */
  lemma {:induction false} SelectKeys(h: Entries, keys: seq<Value>, k: Value)
    ensures HasKey(Select(h, keys), k) ==> HasKey(h, k)
  {
    if h != [] && HasKey(Select(h, keys), k) {
      var init := h[..|h| - 1];
      var i :| 0 <= i < |Select(h, keys)| && Select(h, keys)[i].0 == k;
      if i < |Select(init, keys)| {
        assert Select(init, keys)[i].0 == k;
        SelectKeys(init, keys, k);
        var j :| 0 <= j < |init| && init[j].0 == k;
        assert h[j].0 == k;
      } else {
        assert h[|h| - 1].0 == k;
      }
    }
  }

  /** The keys of `Reject(h, keys)` all come from `h`. */
  lemma {:induction false} RejectKeys(h: Entries, keys: seq<Value>, k: Value)
    ensures HasKey(Reject(h, keys), k) ==> HasKey(h, k)
  {
    if h != [] && HasKey(Reject(h, keys), k) {
      var init := h[..|h| - 1];
      var i :| 0 <= i < |Reject(h, keys)| && Reject(h, keys)[i].0 == k;
      if i < |Reject(init, keys)| {
        assert Reject(init, keys)[i].0 == k;
        RejectKeys(init, keys, k);
        var j :| 0 <= j < |init| && init[j].0 == k;
        assert h[j].0 == k;
      } else {
        assert h[|h| - 1].0 == k;
      }
    }
  }

  /** Reading a Hash that has had one pair appended. */
  lemma {:induction false} GetAppend(h: Entries, e: (Value, Value), k: Value)
    ensures Get(h + [e], k) == if HasKey(h, k) then Get(h, k) else if e.0 == k then e.1 else Nil
  {
    if h != [] {
      assert (h + [e])[1..] == h[1..] + [e];
      GetAppend(h[1..], e, k);
      if h[0].0 != k && HasKey(h, k) {
        var i :| 0 <= i < |h| && h[i].0 == k;
        assert h[1..][i - 1].0 == k;
      }
      if HasKey(h[1..], k) {
        var i :| 0 <= i < |h[1..]| && h[1..][i].0 == k;
        assert h[i + 1].0 == k;
      }
    }
  }

  /** A symbol whose name is longer or shorter than every listed name is
      not listed. */
  lemma SymNotListed(k: string, keys: seq<Value>)
    requires forall v :: v in keys ==> v.Sym? && |v.name| != |k|
    ensures Sym(k) !in keys
  {
  }

  /** A listed key reads the same in `Select(h, keys)` as in `h`. */
  lemma {:induction false} GetSelect(h: Entries, keys: seq<Value>, k: Value)
    requires k in keys
    ensures Get(Select(h, keys), k) == Get(h, k)
  {
    if h != [] {
      var init, last := h[..|h| - 1], h[|h| - 1];
      assert h == init + [last];
      GetSelect(init, keys, k);
      GetAppend(init, last, k);
      SelectKeys(init, keys, k);
      GetSelectHas(init, keys, k);
      if last.0 in keys {
        assert Select(h, keys) == Select(init, keys) + [last];
        GetAppend(Select(init, keys), last, k);
      } else {
        assert Select(h, keys) == Select(init, keys);
      }
    }
  }

  /** A listed key that `h` has, `Select(h, keys)` has too. */
  lemma {:induction false} GetSelectHas(h: Entries, keys: seq<Value>, k: Value)
    requires k in keys
    ensures HasKey(h, k) ==> HasKey(Select(h, keys), k)
  {
    if h != [] && HasKey(h, k) {
      var init, last := h[..|h| - 1], h[|h| - 1];
      if last.0 == k {
        assert Select(h, keys)[|Select(h, keys)| - 1] == last;
      } else {
        var i :| 0 <= i < |h| && h[i].0 == k;
        assert init[i].0 == k;
        GetSelectHas(init, keys, k);
        var j :| 0 <= j < |Select(init, keys)| && Select(init, keys)[j].0 == k;
        assert Select(h, keys)[j].0 == k;
      }
    }
  }

  /** An unlisted key reads the same in `Reject(h, keys)` as in `h`. */
  lemma {:induction false} GetReject(h: Entries, keys: seq<Value>, k: Value)
    requires k !in keys
    ensures Get(Reject(h, keys), k) == Get(h, k)
  {
    if h != [] {
      var init, last := h[..|h| - 1], h[|h| - 1];
      assert h == init + [last];
      GetReject(init, keys, k);
      GetAppend(init, last, k);
      RejectKeys(init, keys, k);
      GetRejectHas(init, keys, k);
      if last.0 !in keys {
        assert Reject(h, keys) == Reject(init, keys) + [last];
        GetAppend(Reject(init, keys), last, k);
      } else {
        assert Reject(h, keys) == Reject(init, keys);
      }
    }
  }

  /** An unlisted key that `h` has, `Reject(h, keys)` has too. */
  lemma {:induction false} GetRejectHas(h: Entries, keys: seq<Value>, k: Value)
    requires k !in keys
    ensures HasKey(h, k) ==> HasKey(Reject(h, keys), k)
  {
    if h != [] && HasKey(h, k) {
      var init, last := h[..|h| - 1], h[|h| - 1];
      if last.0 == k {
        assert Reject(h, keys)[|Reject(h, keys)| - 1] == last;
      } else {
        var i :| 0 <= i < |h| && h[i].0 == k;
        assert init[i].0 == k;
        GetRejectHas(init, keys, k);
        var j :| 0 <= j < |Reject(init, keys)| && Reject(init, keys)[j].0 == k;
        assert Reject(h, keys)[j].0 == k;
      }
    }
  }

  /** Splitting a Hash by a key list loses and duplicates no pair: the two
      sides together hold exactly the pairs of `h`. */
  lemma {:induction false} SelectRejectPartition(h: Entries, keys: seq<Value>)
    ensures multiset(Select(h, keys)) + multiset(Reject(h, keys)) == multiset(h)
  {
    if h != [] {
      var init, last := h[..|h| - 1], h[|h| - 1];
      SelectRejectPartition(init, keys);
      assert h == init + [last];
      assert multiset(h) == multiset(init) + multiset{last};
    }
  }

  /** Every pair `Select` keeps has a listed key. */
  lemma {:induction false} SelectListed(h: Entries, keys: seq<Value>, i: int)
    requires 0 <= i < |Select(h, keys)|
    ensures Select(h, keys)[i].0 in keys
  {
    var init := h[..|h| - 1];
    if i < |Select(init, keys)| {
      SelectListed(init, keys, i);
    }
  }

  /** Every pair `Reject` keeps has a key that is not listed. */
  lemma {:induction false} RejectUnlisted(h: Entries, keys: seq<Value>, i: int)
    requires 0 <= i < |Reject(h, keys)|
    ensures Reject(h, keys)[i].0 !in keys
  {
    var init := h[..|h| - 1];
    if i < |Reject(init, keys)| {
      RejectUnlisted(init, keys, i);
    }
  }

  /** Setting a key that is not there appends the pair. */
  lemma {:induction false} SetAbsent(h: Entries, k: Value, v: Value)
    requires !HasKey(h, k)
    ensures Set(h, k, v) == h + [(k, v)]
  {
    if h != [] {
      assert h[0].0 != k;
      forall i | 0 <= i < |h[1..]| ensures h[1..][i].0 != k {
        assert h[1..][i] == h[i + 1];
      }
      SetAbsent(h[1..], k, v);
      assert h == [h[0]] + h[1..];
    }
  }

  /** Reading after `h[k] = v`: `k` gives `v`, every other key is as before. */
  lemma {:induction false} GetSet(h: Entries, k: Value, v: Value, j: Value)
    ensures Get(Set(h, k, v), j) == if j == k then v else Get(h, j)
  {
    if h != [] && h[0].0 != k {
      GetSet(h[1..], k, v, j);
    }
  }

  /** After `h.delete(k)` the key `k` reads as nil, every other key as before. */
  lemma {:induction false} GetDelete(h: Entries, k: Value, j: Value)
    ensures Get(Delete(h, k), j) == if j == k then Nil else Get(h, j)
  {
    if h != [] {
      GetDelete(h[1..], k, j);
    }
  }

  /** `h[k] = v` adds the key `k` and no other. */
  lemma {:induction false} HasKeySet(h: Entries, k: Value, v: Value, j: Value)
    ensures HasKey(Set(h, k, v), j) <==> j == k || HasKey(h, j)
  {
    if h != [] {
      HasKeySet(h[1..], k, v, j);
      HasKeyTail(h, j);
      HasKeyTail(Set(h, k, v), j);
      if h[0].0 == k {
        assert Set(h, k, v)[1..] == h[1..];
      } else {
        assert Set(h, k, v)[1..] == Set(h[1..], k, v);
      }
    } else {
      assert Set(h, k, v)[0].0 == k;
    }
  }

  /** `h.delete(k)` removes the key `k` and no other. */
  lemma {:induction false} HasKeyDelete(h: Entries, k: Value, j: Value)
    ensures HasKey(Delete(h, k), j) <==> j != k && HasKey(h, j)
  {
    if h != [] {
      HasKeyDelete(h[1..], k, j);
      HasKeyTail(h, j);
      if h[0].0 != k {
        HasKeyTail(Delete(h, k), j);
        assert Delete(h, k)[1..] == Delete(h[1..], k);
      }
    }
  }

  /** A key is in a non-empty Hash when it is the first key or in the rest. */
  lemma HasKeyTail(h: Entries, j: Value)
    requires h != []
    ensures HasKey(h, j) <==> h[0].0 == j || HasKey(h[1..], j)
  {
    if HasKey(h, j) && h[0].0 != j {
      var i :| 0 <= i < |h| && h[i].0 == j;
      assert h[1..][i - 1] == h[i];
    }
    if HasKey(h[1..], j) {
      var i :| 0 <= i < |h[1..]| && h[1..][i].0 == j;
      assert h[i + 1] == h[1..][i];
    }
  }

  /** `Reject` keeps none of the listed keys. */
  lemma HasKeyReject(h: Entries, keys: seq<Value>, j: Value)
    ensures HasKey(Reject(h, keys), j) ==> j !in keys
  {
    if HasKey(Reject(h, keys), j) {
      var i :| 0 <= i < |Reject(h, keys)| && Reject(h, keys)[i].0 == j;
      RejectUnlisted(h, keys, i);
    }
  }

  /** A stripped String is present exactly when it is not empty. */
  lemma PresentStripped(s: string)
    ensures Present(Str(Strip(s))) <==> Strip(s) != []
  {
    StripMeaning(s);
  }

  /** A trimmed string is present exactly when it is not empty. */
  lemma PresentTrimmed(s: string)
    requires Trimmed(s)
    ensures Present(Str(s)) <==> s != []
  {
    if s != [] {
      assert !IsSpace(s[0]);
    }
  }

  /** Stripping twice strips nothing more. */
  lemma StripIdempotent(s: string)
    ensures Strip(Strip(s)) == Strip(s)
  {
    StripMeaning(s);
    var t := Strip(s);
    if t != [] {
      assert LStrip(t) == t;
      RStripClean(t);
    }
  }
}
