/**
 * Static default overrides (override.go): an ordered list of
 * (field name, value) pairs, looked up case-insensitively, first match
 * wins. `getOverridenValue` in flag.go is the same algorithm and is
 * modelled by the same function.
 *
 * Go stores the value as `any` and asserts it to the field's type,
 * panicking on a mismatch; here an override list is typed, so that
 * panic cannot arise.
 */
module Overrides {
  import opened Strings

  datatype Override<T> = Override(name: string, value: T)

  /** `NewOverride`. */
  function NewOverride<T>(name: string, value: T): (r: Override<T>)
    ensures r.name == name && r.value == value
  {
    Override(name, value)
  }

  /** `strings.EqualFold`, on ASCII: equal once both are lower-cased. */
  predicate EqualFold(a: string, b: string)
    ensures a == b ==> EqualFold(a, b)
    ensures EqualFold(a, b) ==> |a| == |b|
  {
    ToLower(a) == ToLower(b)
  }

  lemma EqualFoldIsEquivalence(a: string, b: string, c: string)
    ensures EqualFold(a, a)
    ensures EqualFold(a, b) ==> EqualFold(b, a)
    ensures EqualFold(a, b) && EqualFold(b, c) ==> EqualFold(a, c)
  {
  }

  /** Matching ignores case: "Name" selects the field "name" and the field "NAME". */
  lemma EqualFoldExample()
    ensures EqualFold("Name", "name") && EqualFold("Name", "NAME")
    ensures !EqualFold("Name", "names")
  {
    assert ToLower("Name") == "name";
    assert ToLower("NAME") == "name";
  }

  /**
   * `defaultStaticValue` / `getOverridenValue`: the value of the first
   * override whose name equals `name` ignoring case, else `value`.
   */
  function DefaultStaticValue<T>(name: string, value: T, overrides: seq<Override<T>>): (r: T)
    ensures r == value || exists i :: 0 <= i < |overrides| && r == overrides[i].value
  {
    if overrides == [] then value
    else if EqualFold(name, overrides[0].name) then overrides[0].value
    else DefaultStaticValue(name, value, overrides[1..])
  }

  /** Index of the first override matching `name`, if any. */
  predicate FirstMatch<T>(name: string, overrides: seq<Override<T>>, i: nat) {
    && i < |overrides|
    && EqualFold(name, overrides[i].name)
    && forall j :: 0 <= j < i ==> !EqualFold(name, overrides[j].name)
  }

  lemma DefaultStaticValueEmpty<T>(name: string, value: T)
    ensures DefaultStaticValue(name, value, []) == value
  {
  }

  /** The first case-insensitive match decides the result. */
  lemma {:induction false} FirstMatchWins<T>(name: string, value: T, overrides: seq<Override<T>>, i: nat)
    requires FirstMatch(name, overrides, i)
    ensures DefaultStaticValue(name, value, overrides) == overrides[i].value
  {
    if i > 0 {
      assert !EqualFold(name, overrides[0].name);
      FirstMatchWins(name, value, overrides[1..], i - 1);
    }
  }

  /** Without a matching override the static default is kept. */
  lemma {:induction false} NoMatchKeepsStatic<T>(name: string, value: T, overrides: seq<Override<T>>)
    requires forall j :: 0 <= j < |overrides| ==> !EqualFold(name, overrides[j].name)
    ensures DefaultStaticValue(name, value, overrides) == value
  {
    if overrides != [] {
      NoMatchKeepsStatic(name, value, overrides[1..]);
    }
  }

  /** Overrides after a match never affect the result. */
  lemma {:induction false} LaterOverridesIgnored<T>(name: string, value: T, front: seq<Override<T>>, back: seq<Override<T>>)
    requires exists j :: 0 <= j < |front| && EqualFold(name, front[j].name)
    ensures DefaultStaticValue(name, value, front + back) == DefaultStaticValue(name, value, front)
  {
    assert (front + back)[0] == front[0];
    if !EqualFold(name, front[0].name) {
      assert (front + back)[1..] == front[1..] + back;
      var j :| 0 <= j < |front| && EqualFold(name, front[j].name);
      assert 0 <= j - 1 < |front[1..]| && front[1..][j - 1] == front[j];
      LaterOverridesIgnored(name, value, front[1..], back);
    }
  }

  /** Prepending an override whose name does not match changes nothing. */
  lemma PrependNonMatching<T>(name: string, value: T, o: Override<T>, overrides: seq<Override<T>>)
    requires !EqualFold(name, o.name)
    ensures DefaultStaticValue(name, value, [o] + overrides) == DefaultStaticValue(name, value, overrides)
  {
    assert ([o] + overrides)[1..] == overrides;
  }

  /** Only the case-folded field name matters: "Name" and "name" resolve alike. */
  lemma {:induction false} CaseInsensitiveName<T>(a: string, b: string, value: T, overrides: seq<Override<T>>)
    requires EqualFold(a, b)
    ensures DefaultStaticValue(a, value, overrides) == DefaultStaticValue(b, value, overrides)
  {
    if overrides != [] {
      CaseInsensitiveName(a, b, value, overrides[1..]);
    }
  }
}
