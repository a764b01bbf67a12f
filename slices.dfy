/**
 * The list-valued flags of slices.go: an adapter that the flag parser
 * calls once per occurrence of the flag, whatever name it was given
 * under, and the parsers that read a default list from an
 * environment variable holding separated values.
 *
 * A Go pointer `*[]T` is a `Slot`: a cell that the caller and the
 * adapter share. Floating-point numbers are a type parameter `F` read by
 * a given parser (`strconv.ParseFloat` is not part of this model).
 */
module Slices {
  import opened Wrappers
  import opened Strings
  import opened Overrides
  import opened Flags

  /** A Go pointer: a cell that several objects share and update. */
  class Slot<T> {
    var value: T

    constructor (v: T)
      ensures value == v
    {
      value := v;
    }
  }

  // ---------------------------------------------------------------------
  // Splitting on a separator, as `strings.Split` does.
  // ---------------------------------------------------------------------

  /** Position `i` of `s` begins an occurrence of `sep`. */
  predicate OccursAt(s: string, sep: string, i: int) {
    0 <= i && i + |sep| <= |s| && s[i..i + |sep|] == sep
  }

  /** `strings.Index`, searching from position `k` on: the first occurrence, or -1. */
  function IndexFrom(s: string, sep: string, k: nat): (r: int)
    requires sep != []
    ensures r == -1 || (k <= r && OccursAt(s, sep, r))
    ensures forall j :: k <= j < (if r == -1 then |s| else r) ==> !OccursAt(s, sep, j)
    decreases |s| - k
  {
    if k + |sep| > |s| then -1
    else if s[k..k + |sep|] == sep then k
    else IndexFrom(s, sep, k + 1)
  }

  /**
   * `strings.Split`: the pieces between the occurrences of `sep`, read left
   * to right; an empty separator splits into single characters.
   */
  function Split(s: string, sep: string): (r: seq<string>)
    ensures sep == [] ==> |r| == |s| && forall k :: 0 <= k < |r| ==> r[k] == [s[k]]
    ensures sep != [] ==> |r| >= 1
    ensures sep != [] ==> forall k, j :: 0 <= k < |r| ==> !OccursAt(r[k], sep, j)
    ensures sep != [] && IndexFrom(s, sep, 0) >= 0 ==> r[0] == s[..IndexFrom(s, sep, 0)]
    decreases |s|
  {
    if sep == [] then seq(|s|, i requires 0 <= i < |s| => [s[i]])
    else
      var i := IndexFrom(s, sep, 0);
      if i < 0 then [s]
      else
        NoOccurrenceBefore(s, sep, i);
        [s[..i]] + Split(s[i + |sep|..], sep)
  }

  /** A prefix that ends before the first occurrence holds no occurrence. */
  lemma NoOccurrenceBefore(s: string, sep: string, i: nat)
    requires sep != [] && i <= |s| && forall j :: 0 <= j < i ==> !OccursAt(s, sep, j)
    ensures forall j :: !OccursAt(s[..i], sep, j)
  {
    forall j | OccursAt(s[..i], sep, j) ensures false {
      assert s[..i][j..j + |sep|] == s[j..j + |sep|];
      assert OccursAt(s, sep, j);
    }
  }

  /** Joining the pieces with the separator gives back the input. */
  lemma {:induction false} JoinSplit(s: string, sep: string)
    ensures Join(Split(s, sep), sep) == s
    decreases |s|
  {
    if sep == [] {
      JoinSingles(s);
    } else {
      var i := IndexFrom(s, sep, 0);
      if i >= 0 {
        var rest := s[i + |sep|..];
        JoinSplit(rest, sep);
        assert Split(s, sep) == [s[..i]] + Split(rest, sep);
        assert s == s[..i] + sep + rest;
      }
    }
  }

  lemma {:induction false} JoinSingles(s: string)
    ensures Join(seq(|s|, i requires 0 <= i < |s| => [s[i]]), "") == s
    decreases |s|
  {
    var parts := seq(|s|, i requires 0 <= i < |s| => [s[i]]);
    if |s| > 1 {
      JoinSingles(s[1..]);
      assert parts[1..] == seq(|s[1..]|, i requires 0 <= i < |s[1..]| => [s[1..][i]]);
      assert s == [s[0]] + "" + s[1..];
    }
  }

  /**
   * When neither a piece nor the rest of the separator contains the
   * separator's first character, splitting takes a joined list apart
   * again. This is the case of the ", " that `String` joins with.
   */
  lemma {:induction false} SplitJoin(parts: seq<string>, sep: string)
    requires parts != [] && sep != []
    requires sep[0] !in sep[1..]
    requires forall k :: 0 <= k < |parts| ==> sep[0] !in parts[k]
    ensures Split(Join(parts, sep), sep) == parts
    decreases |parts|
  {
    var s := Join(parts, sep);
    var p := parts[0];
    if |parts| == 1 {
      assert s == p;
      NoOccurrenceWithout(s, sep);
    } else {
      var rest := Join(parts[1..], sep);
      assert s == p + sep + rest;
      FirstPieceEnds(p, sep, rest);
      assert s[..|p|] == p;
      assert s[|p| + |sep|..] == rest;
      SplitJoin(parts[1..], sep);
    }
  }

  /** The first separator after a piece without the separator's first character ends that piece. */
  lemma FirstPieceEnds(p: string, sep: string, rest: string)
    requires sep != [] && sep[0] !in p
    ensures IndexFrom(p + sep + rest, sep, 0) == |p|
  {
    var s := p + sep + rest;
    assert s[|p|..|p| + |sep|] == sep;
    assert OccursAt(s, sep, |p|);
    forall j | 0 <= j < |p| ensures !OccursAt(s, sep, j) {
      assert s[j] == p[j] && p[j] in p;
    }
  }

  lemma NoOccurrenceWithout(s: string, sep: string)
    requires sep != [] && sep[0] !in s
    ensures IndexFrom(s, sep, 0) == -1
  {
  }

  // ---------------------------------------------------------------------
  // The environment parsers inside StringSliceVar and Float64SliceVar.
  // ---------------------------------------------------------------------

  /** The string-list parser: an empty variable is an empty list, otherwise its pieces. */
  function SplitEnv(input: string, sep: string): (r: seq<string>)
    ensures input == [] ==> r == []
    ensures input != [] ==> Join(r, sep) == input
    ensures input != [] && sep == [] ==> |r| == |input| && forall k :: 0 <= k < |r| ==> r[k] == [input[k]]
    ensures input != [] && sep != [] ==> forall k, j :: 0 <= k < |r| ==> !OccursAt(r[k], sep, j)
  {
    if |input| == 0 then [] else JoinSplit(input, sep); Split(input, sep)
  }

  /** The string-list parser never fails: every input gives its pieces. */
  function StringListParser(sep: string): (r: string -> Option<seq<string>>)
    ensures forall input :: r(input).Some?
    ensures forall input :: input == [] ==> r(input).value == []
    ensures forall input :: input != [] ==> Join(r(input).value, sep) == input
  {
    input => Some(SplitEnv(input, sep))
  }

  /** Every piece parsed, or `None` as soon as one piece does not parse. */
  function ParseEach<F>(parts: seq<string>, parse: string -> Option<F>): (r: Option<seq<F>>)
    ensures r.Some? <==> forall i :: 0 <= i < |parts| ==> parse(parts[i]).Some?
    ensures r.Some? ==> |r.value| == |parts|
    ensures r.Some? ==> forall i :: 0 <= i < |parts| ==> r.value[i] == parse(parts[i]).value
  {
    if parts == [] then Some([])
    else
      match (parse(parts[0]), ParseEach(parts[1..], parse))
      case (Some(x), Some(xs)) => Some([x] + xs)
      case _ => None
  }

  /** The float-list parser: empty input is an empty list, otherwise every piece must parse. */
  function FloatListParser<F>(sep: string, parse: string -> Option<F>): (r: string -> Option<seq<F>>)
    ensures r([]) == Some([])
  {
    input => if |input| == 0 then Some([]) else ParseEach(Split(input, sep), parse)
  }

  /**
   * A non-empty input is all or nothing: it is read when every piece
   * parses, as the list of the pieces' values, and refused otherwise.
   */
  lemma FloatListParserAllOrNothing<F>(sep: string, parse: string -> Option<F>, input: string)
    requires input != []
    ensures var r, parts := FloatListParser(sep, parse)(input), Split(input, sep);
      && (r.Some? <==> forall i :: 0 <= i < |parts| ==> parse(parts[i]).Some?)
      && (r.Some? ==> |r.value| == |parts| && forall i :: 0 <= i < |parts| ==> r.value[i] == parse(parts[i]).value)
  {
  }

  /**
   * The loop of the float-list parser: the pieces are parsed left to
   * right and the first failure fails the whole input.
   */
  method ParseFloatList<F>(input: string, sep: string, parse: string -> Option<F>) returns (r: Option<seq<F>>)
    ensures input == [] ==> r == Some([])
    ensures input != [] ==> r == ParseEach(Split(input, sep), parse)
  {
    if |input| == 0 {
      return Some([]);
    }
    var parts := Split(input, sep);
    var output: seq<F> := [];
    var i := 0;
    while i < |parts|
      invariant 0 <= i <= |parts| && |output| == i
      invariant forall j :: 0 <= j < i ==> parse(parts[j]).Some? && output[j] == parse(parts[j]).value
    {
      var v := parse(parts[i]);
      if v.None? {
        return None;
      }
      output := output + [v.value];
      i := i + 1;
    }
    assert ParseEach(parts, parse).value == output;
    r := Some(output);
  }

  // ---------------------------------------------------------------------
  // The adapters.
  // ---------------------------------------------------------------------

  /** `stringSlice`: the first `Set` replaces the default, the later ones append. */
  class StringSliceValue {
    const values: Slot<seq<string>>
    var edited: bool

    /** `newStringSlice`: the initial list is stored into the target, and nothing is edited yet. */
    constructor (val: seq<string>, p: Slot<seq<string>>)
      modifies p
      ensures values == p && p.value == val && !edited
    {
      values := p;
      edited := false;
      new;
      p.value := val;
    }

    function Get(): seq<string>
      reads values
    {
      values.value
    }

    /** `String`: empty for an empty list, otherwise the elements between brackets. */
    function String(): (r: string)
      reads values
      ensures r == "" <==> values.value == []
      ensures r != "" ==> |r| >= 2 && r[0] == '[' && r[|r| - 1] == ']'
      ensures r != "" ==> Join(values.value, ", ") == r[1..|r| - 1]
    {
      if |values.value| == 0 then "" else "[" + Join(values.value, ", ") + "]"
    }

    /** `Set`: clears the list the first time, then appends `value`. */
    method Set(value: string)
      modifies this, values
      ensures edited
      ensures values.value == (if old(edited) then old(values.value) else []) + [value]
    {
      if !edited {
        edited := true;
        values.value := [];
      }
      values.value := values.value + [value];
    }
  }

  /** Elements without a comma can be read back from the text of `String`. */
  lemma StringReadsBack(v: StringSliceValue)
    requires v.values.value != []
    requires forall k :: 0 <= k < |v.values.value| ==> ',' !in v.values.value[k]
    ensures var r := v.String(); Split(r[1..|r| - 1], ", ") == v.values.value
  {
    SplitJoin(v.values.value, ", ");
  }

  /**
   * The flag parser calls `Set` once per occurrence, under either name
   * of the flag, on the adapter both names share: the list ends up as
   * exactly the occurrences, whatever the default was.
   */
  method SetEach(target: StringSliceValue, occurrences: seq<string>)
    modifies target, target.values
    ensures target.edited == (old(target.edited) || occurrences != [])
    ensures target.values.value
         == (if old(target.edited) || occurrences == [] then old(target.values.value) else []) + occurrences
  {
    var i := 0;
    while i < |occurrences|
      invariant 0 <= i <= |occurrences|
      invariant target.edited == (old(target.edited) || i > 0)
      invariant target.values.value
             == (if old(target.edited) || i == 0 then old(target.values.value) else []) + occurrences[..i]
    {
      target.Set(occurrences[i]);
      i := i + 1;
    }
    assert occurrences[..i] == occurrences;
  }

  /** `float64Slice`: as `stringSlice`, but each value is parsed first. */
  class Float64SliceValue<F> {
    const values: Slot<seq<F>>
    const parse: string -> Option<F>
    var edited: bool

    /** `newfloat64Slice`. */
    constructor (val: seq<F>, p: Slot<seq<F>>, parse: string -> Option<F>)
      modifies p
      ensures values == p && p.value == val && this.parse == parse && !edited
    {
      values := p;
      this.parse := parse;
      edited := false;
      new;
      p.value := val;
    }

    function Get(): seq<F>
      reads values
    {
      values.value
    }

    /**
     * `Set`: the list is cleared and marked edited before the value is
     * parsed, so a first value that does not parse leaves an empty list;
     * `ok` is false exactly when the value does not parse.
     */
    method Set(value: string) returns (ok: bool)
      modifies this, values
      ensures edited
      ensures ok == parse(value).Some?
      ensures values.value
           == (if old(edited) then old(values.value) else []) + (if ok then [parse(value).value] else [])
    {
      if !edited {
        edited := true;
        values.value := [];
      }
      var v := parse(value);
      if v.None? {
        return false;
      }
      values.value := values.value + [v.value];
      return true;
    }
  }

  // ---------------------------------------------------------------------
  // Registration.
  // ---------------------------------------------------------------------

  /** A name the adapter is registered under, with its help text. */
  datatype Binding<V> = Binding(name: string, usage: string, target: V)

  /** The help text of a list flag: the label, the list type and the separator. */
  function SliceUsage(prefix: string, docPrefix: string, labelText: string, envName: string,
                      typeName: string, envSeparator: string): (r: string)
    ensures var head := FormatLabel(prefix, docPrefix, labelText, envName);
      |head| <= |r| && r[..|head|] == head
    ensures |Quote(envSeparator)| <= |r| && r[|r| - |Quote(envSeparator)|..] == Quote(envSeparator)
  {
    FormatLabel(prefix, docPrefix, labelText, envName)
      + ", as a `" + typeName + "`, environment variable separated by " + Quote(envSeparator)
  }

  /** The names a list flag is registered under: the shorthand first, when there is one. */
  function SliceNames(prefix: string, shorthand: string, flagName: string): (r: seq<string>)
    ensures |r| == if shorthand == [] then 1 else 2
    ensures shorthand == [] ==> r == [FirstLowerCase(flagName)]
    ensures shorthand != [] ==> r == [FirstLowerCase(prefix + FirstUpperCase(shorthand)), FirstLowerCase(flagName)]
  {
    (if |shorthand| > 0 then [FirstLowerCase(prefix + FirstUpperCase(shorthand))] else []) + [FirstLowerCase(flagName)]
  }

  /** `fs.Var(target, name, usage)` for each name: every binding holds the same adapter. */
  function Bind<V>(names: seq<string>, usage: string, target: V): (r: seq<Binding<V>>)
    ensures |r| == |names|
    ensures forall k :: 0 <= k < |r| ==> r[k].name == names[k] && r[k].usage == usage && r[k].target == target
  {
    seq(|names|, k requires 0 <= k < |names| => Binding(names[k], usage, target))
  }

  /**
   * `StringSliceVar`: resolves the default (environment, then override,
   * then `values`), stores it into `output`, and binds ONE adapter under
   * every name of the flag.
   */
  method StringSliceVar(fsName: string, env: Environment, output: Slot<seq<string>>,
                        prefix: string, docPrefix: string, name: string, shorthand: string, labelText: string,
                        envVar: string, envSeparator: string, values: seq<string>, overrides: seq<Override<seq<string>>>)
    returns (target: StringSliceValue, bindings: seq<Binding<StringSliceValue>>)
    modifies output
    ensures fresh(target) && target.values == output && !target.edited
    ensures var names := GetNameAndEnvWithEnv(fsName, FirstUpperCase(prefix), name, envVar);
      && output.value == DefaultValue(env, names.1, DefaultStaticValue(name, values, overrides), StringListParser(envSeparator))
      && bindings == Bind(SliceNames(prefix, shorthand, names.0),
                          SliceUsage(prefix, docPrefix, labelText, names.1, "string slice", envSeparator), target)
  {
    var (flagName, envName) := GetNameAndEnvWithEnv(fsName, FirstUpperCase(prefix), name, envVar);
    var usage := SliceUsage(prefix, docPrefix, labelText, envName, "string slice", envSeparator);
    var initialValue := DefaultValue(env, envName, DefaultStaticValue(name, values, overrides), StringListParser(envSeparator));
    target := new StringSliceValue(initialValue, output);
    bindings := Bind(SliceNames(prefix, shorthand, flagName), usage, target);
  }

  /** `StringSlice`: `StringSliceVar` into a freshly allocated list. */
  method StringSlice(fsName: string, env: Environment,
                     prefix: string, docPrefix: string, name: string, shorthand: string, labelText: string,
                     envVar: string, envSeparator: string, values: seq<string>, overrides: seq<Override<seq<string>>>)
    returns (output: Slot<seq<string>>, bindings: seq<Binding<StringSliceValue>>)
    ensures fresh(output)
    ensures var names := GetNameAndEnvWithEnv(fsName, FirstUpperCase(prefix), name, envVar);
      output.value == DefaultValue(env, names.1, DefaultStaticValue(name, values, overrides), StringListParser(envSeparator))
    ensures |bindings| == (if shorthand == [] then 1 else 2)
    ensures var names := GetNameAndEnvWithEnv(fsName, FirstUpperCase(prefix), name, envVar);
      var target := bindings[0].target;
      && fresh(target) && target.values == output && !target.edited
      && bindings == Bind(SliceNames(prefix, shorthand, names.0),
                          SliceUsage(prefix, docPrefix, labelText, names.1, "string slice", envSeparator), target)
  {
    output := new Slot([]);
    var target;
    target, bindings := StringSliceVar(fsName, env, output, prefix, docPrefix, name, shorthand, labelText,
                                       envVar, envSeparator, values, overrides);
  }

  /** `defaultValue` with the float-list parser's loop. */
  method FloatDefault<F>(env: Environment, envName: string, staticValue: seq<F>, sep: string,
                         parse: string -> Option<F>) returns (v: seq<F>)
    ensures v == DefaultValue(env, envName, staticValue, FloatListParser(sep, parse))
  {
    v := staticValue;
    if envName in env {
      var parsed := ParseFloatList(env[envName], sep, parse);
      if parsed.Some? {
        v := parsed.value;
      }
    }
  }

  /**
   * `Float64SliceVar`: as `StringSliceVar`, with the float-list parser
   * for the environment variable; an input with a piece that does not
   * parse is ignored as a whole.
   */
  method Float64SliceVar<F>(fsName: string, env: Environment, output: Slot<seq<F>>,
                            prefix: string, docPrefix: string, name: string, shorthand: string, labelText: string,
                            envVar: string, envSeparator: string, values: seq<F>, overrides: seq<Override<seq<F>>>,
                            parse: string -> Option<F>)
    returns (target: Float64SliceValue<F>, bindings: seq<Binding<Float64SliceValue<F>>>)
    modifies output
    ensures fresh(target) && target.values == output && target.parse == parse && !target.edited
    ensures var names := GetNameAndEnvWithEnv(fsName, FirstUpperCase(prefix), name, envVar);
      && output.value == DefaultValue(env, names.1, DefaultStaticValue(name, values, overrides), FloatListParser(envSeparator, parse))
      && bindings == Bind(SliceNames(prefix, shorthand, names.0),
                          SliceUsage(prefix, docPrefix, labelText, names.1, "float64 slice", envSeparator), target)
  {
    var (flagName, envName) := GetNameAndEnvWithEnv(fsName, FirstUpperCase(prefix), name, envVar);
    var usage := SliceUsage(prefix, docPrefix, labelText, envName, "float64 slice", envSeparator);
    var initialValue := FloatDefault(env, envName, DefaultStaticValue(name, values, overrides), envSeparator, parse);
    target := new Float64SliceValue(initialValue, output, parse);
    bindings := Bind(SliceNames(prefix, shorthand, flagName), usage, target);
  }

  /** `Float64Slice`: `Float64SliceVar` into a freshly allocated list. */
  method Float64Slice<F>(fsName: string, env: Environment,
                         prefix: string, docPrefix: string, name: string, shorthand: string, labelText: string,
                         envVar: string, envSeparator: string, values: seq<F>, overrides: seq<Override<seq<F>>>,
                         parse: string -> Option<F>)
    returns (output: Slot<seq<F>>, bindings: seq<Binding<Float64SliceValue<F>>>)
    ensures fresh(output)
    ensures var names := GetNameAndEnvWithEnv(fsName, FirstUpperCase(prefix), name, envVar);
      output.value == DefaultValue(env, names.1, DefaultStaticValue(name, values, overrides), FloatListParser(envSeparator, parse))
    ensures |bindings| == (if shorthand == [] then 1 else 2)
    ensures var names := GetNameAndEnvWithEnv(fsName, FirstUpperCase(prefix), name, envVar);
      var target := bindings[0].target;
      && fresh(target) && target.values == output && !target.edited && target.parse == parse
      && bindings == Bind(SliceNames(prefix, shorthand, names.0),
                          SliceUsage(prefix, docPrefix, labelText, names.1, "float64 slice", envSeparator), target)
  {
    output := new Slot<seq<F>>([]);
    var target: Float64SliceValue<F>;
    target, bindings := Float64SliceVar(fsName, env, output, prefix, docPrefix, name, shorthand, labelText,
                                        envVar, envSeparator, values, overrides, parse);
  }

  // ---------------------------------------------------------------------
  // Worked examples.
  // ---------------------------------------------------------------------

  lemma CutSliceLabels(s: string)
    requires s == "StringSliceLabels"
    ensures s == s[..6] + s[6..11] + s[11..]
    ensures s[..6] == "String" && s[6..11] == "Slice" && s[11..] == "Labels"
  {
  }

  lemma SliceLabelsWords(a: string, b: string, c: string)
    requires a == "String" && b == "Slice" && c == "Labels"
    ensures IsWord(a) && IsWord(b) && IsWord(c)
    ensures a + "_" + b + "_" + c == "String_Slice_Labels"
    ensures ToUpper(a + "_" + b + "_" + c) == "STRING_SLICE_LABELS"
  {
  }

  lemma LabelsCases(fsName: string, name: string)
    requires fsName == "StringSlice" && name == "labels"
    ensures FirstUpperCase(fsName) == "StringSlice"
    ensures "" + FirstUpperCase(name) == "Labels" && FirstUpperCase("" + FirstUpperCase(name)) == "Labels"
  {
    FirstUpperCaseIdentity(fsName);
    assert FirstUpperCase(name) == "Labels";
    assert "" + "Labels" == "Labels";
    FirstUpperCaseIdentity("Labels");
  }

  /** Flag set "StringSlice", flag "labels": the list is read from STRING_SLICE_LABELS. */
  lemma NamesOfLabels(fsName: string, name: string)
    requires fsName == "StringSlice" && name == "labels"
    ensures GetNameAndEnvWithEnv(fsName, "", name, "") == ("Labels", "STRING_SLICE_LABELS")
  {
    LabelsCases(fsName, name);
    var source := FirstUpperCase(fsName) + FirstUpperCase("" + FirstUpperCase(name));
    assert source == "StringSlice" + "Labels" == "StringSliceLabels";
    CutSliceLabels(source);
    SliceLabelsWords(source[..6], source[6..11], source[11..]);
    SnakeCaseOfThreeWords(source[..6], source[6..11], source[11..]);
    assert GetNameAndEnv(fsName, "", name).1 == ToUpper(SnakeCase(source));
  }

  /** "env|found" with separator "|" is the list ["env", "found"]. */
  lemma SplitEnvFound(input: string)
    requires input == "env|found"
    ensures StringListParser("|")(input) == Some(["env", "found"])
  {
    var parts := ["env", "found"];
    assert Join(parts, "|") == input;
    SplitJoin(parts, "|");
  }

  /** "env|found" in the derived variable replaces the default ["test", "flags"]. */
  lemma EnvListReplacesDefault(fsName: string, name: string, env: Environment, input: string)
    requires fsName == "StringSlice" && name == "labels" && input == "env|found"
    requires env == map["STRING_SLICE_LABELS" := input]
    ensures var envName := GetNameAndEnvWithEnv(fsName, "", name, "").1;
      DefaultValue(env, envName, ["test", "flags"], StringListParser("|")) == ["env", "found"]
  {
    NamesOfLabels(fsName, name);
    SplitEnvFound(input);
  }

  /** An explicit variable name is read verbatim: MATCHES="info,error" gives ["info", "error"]. */
  lemma ExplicitEnvName(fsName: string, env: Environment, input: string)
    requires input == "info,error" && env == map["MATCHES" := input]
    ensures var names := GetNameAndEnvWithEnv(fsName, "", "Match", "MATCHES");
      names.1 == "MATCHES" && DefaultValue(env, names.1, ["error"], StringListParser(",")) == ["info", "error"]
  {
    var parts := ["info", "error"];
    assert Join(parts, ",") == input;
    SplitJoin(parts, ",");
  }

  /** The default text of the headers flag: "[Authorization, Content-Type]". */
  lemma StringOfDefaults(v: StringSliceValue)
    requires v.values.value == ["Authorization", "Content-Type"]
    ensures v.String() == "[Authorization, Content-Type]"
  {
    assert Join(["Authorization", "Content-Type"], ", ") == "Authorization, Content-Type";
    assert v.String() == "[" + "Authorization, Content-Type" + "]";
  }
}
