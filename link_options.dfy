/** The parts of the option handling that `ActiveLinkTo` and
    `SimpleActiveLinkTo` share word for word. */
module LinkOptions {
  import opened Ruby
  import opened Rails

  /** The class picked once the link's state is known:
      `options[:class_active] || 'active'` or `options[:class_inactive] || ''`. */
  function ClassFor(active: bool, options: Entries): Value {
    if active then Or(Get(options, Sym("class_active")), Str("active"))
    else Or(Get(options, Sym("class_inactive")), Str(""))
  }

  /** A Hash condition: every listed parameter has the given value, compared
      as strings (`params[key].to_s == value.to_s`). */
  predicate ParamsMatch(env: Env, condition: Entries) {
    forall i :: 0 <= i < |condition| ==> ToS(Param(env, condition[i].0)) == ToS(condition[i].1)
  }

  /** Without the two class options the classes are "active" and "". */
  lemma DefaultClassFor(active: bool, options: Entries)
    requires !HasKey(options, Sym("class_active")) && !HasKey(options, Sym("class_inactive"))
    ensures ClassFor(active, options) == Str(if active then "active" else "")
  {
  }

  /** Adding a pair whose key the request has with that value keeps a match,
      and an empty condition always matches. */
  lemma ParamsMatchAppend(env: Env, condition: Entries, key: Value, value: Value)
    ensures ParamsMatch(env, [])
    ensures ParamsMatch(env, condition + [(key, value)])
        <==> ParamsMatch(env, condition) && ToS(Param(env, key)) == ToS(value)
  {
    var c := condition + [(key, value)];
    if ParamsMatch(env, condition) && ToS(Param(env, key)) == ToS(value) {
      forall i | 0 <= i < |c| ensures ToS(Param(env, c[i].0)) == ToS(c[i].1) {
        if i < |condition| { assert c[i] == condition[i]; }
      }
    }
    if ParamsMatch(env, c) {
      forall i | 0 <= i < |condition| ensures ToS(Param(env, condition[i].0)) == ToS(condition[i].1) {
        assert c[i] == condition[i];
      }
      assert c[|condition|] == (key, value);
    }
  }
}
