/**
 * The fluent configuration record of builder.go. Every setter has a
 * value receiver: it returns a copy with one field replaced and leaves
 * the record it was called on as it was, which Dafny's immutable
 * datatypes give for free.
 */
module Builders {
  import opened Wrappers
  import opened Strings
  import opened Overrides
  import opened Flags
  import Slices

  /** The arguments a typed method forwards to its registrar. */
  datatype Arguments = Arguments(prefix: string, docPrefix: string, name: string, shorthand: string,
                                 labelText: string, env: string)

  datatype Builder = Builder(prefix: string, docPrefix: string, name: string, shorthand: string,
                             labelText: string, env: string, envSeparator: string)
  {
    function Shorthand(v: string): (r: Builder)
      ensures r.shorthand == v && r.(shorthand := shorthand) == this
    {
      this.(shorthand := v)
    }

    function Prefix(v: string): (r: Builder)
      ensures r.prefix == v && r.(prefix := prefix) == this
    {
      this.(prefix := v)
    }

    function DocPrefix(v: string): (r: Builder)
      ensures r.docPrefix == v && r.(docPrefix := docPrefix) == this
    {
      this.(docPrefix := v)
    }

    function Env(v: string): (r: Builder)
      ensures r.env == v && r.(env := env) == this
    {
      this.(env := v)
    }

    function EnvSeparator(v: string): (r: Builder)
      ensures r.envSeparator == v && r.(envSeparator := envSeparator) == this
    {
      this.(envSeparator := v)
    }

    /**
     * What `String`, `Int`, `Int64`, `Uint`, `Uint64`, `Float64`, `Bool`
     * and `Duration` forward: six fields, unchanged; the separator is not
     * among them.
     */
    function ScalarArguments(): (r: Arguments)
      ensures r.prefix == prefix && r.docPrefix == docPrefix && r.name == name
      ensures r.shorthand == shorthand && r.labelText == labelText && r.env == env
    {
      Arguments(prefix, docPrefix, name, shorthand, labelText, env)
    }

    /** `StringSlice`: the six fields and the separator, forwarded to the list registrar. */
    method StringSlice(fsName: string, environment: Environment, value: seq<string>,
                       overrides: seq<Override<seq<string>>>)
      returns (output: Slices.Slot<seq<string>>, bindings: seq<Slices.Binding<Slices.StringSliceValue>>)
      ensures fresh(output)
      ensures var names := GetNameAndEnvWithEnv(fsName, FirstUpperCase(prefix), name, env);
        output.value == DefaultValue(environment, names.1, DefaultStaticValue(name, value, overrides),
                                     Slices.StringListParser(envSeparator))
      ensures |bindings| == (if shorthand == [] then 1 else 2)
      ensures var names := GetNameAndEnvWithEnv(fsName, FirstUpperCase(prefix), name, env);
        var target := bindings[0].target;
        && fresh(target) && target.values == output && !target.edited
        && bindings == Slices.Bind(Slices.SliceNames(prefix, shorthand, names.0),
                                   Slices.SliceUsage(prefix, docPrefix, labelText, names.1, "string slice", envSeparator),
                                   target)
    {
      output, bindings := Slices.StringSlice(fsName, environment, prefix, docPrefix, name, shorthand, labelText,
                                             env, envSeparator, value, overrides);
    }
  }

  /** `New`: the capitalised name, the label and the "," separator; everything else empty. */
  function New(name: string, labelText: string): (r: Builder)
    ensures r.name == FirstUpperCase(name) && r.labelText == labelText && r.envSeparator == ","
    ensures r.prefix == "" && r.docPrefix == "" && r.shorthand == "" && r.env == ""
  {
    Builder("", "", FirstUpperCase(name), "", labelText, "", ",")
  }

  /** Setting a field twice keeps the second value only. */
  lemma LastWriteWins(b: Builder, x: string, y: string)
    ensures b.Shorthand(x).Shorthand(y) == b.Shorthand(y)
    ensures b.Prefix(x).Prefix(y) == b.Prefix(y)
    ensures b.DocPrefix(x).DocPrefix(y) == b.DocPrefix(y)
    ensures b.Env(x).Env(y) == b.Env(y)
    ensures b.EnvSeparator(x).EnvSeparator(y) == b.EnvSeparator(y)
  {
  }

  /** Setters of different fields can be called in either order. */
  lemma SettersCommute(b: Builder, x: string, y: string)
    ensures b.Shorthand(x).Prefix(y) == b.Prefix(y).Shorthand(x)
    ensures b.Shorthand(x).DocPrefix(y) == b.DocPrefix(y).Shorthand(x)
    ensures b.Shorthand(x).Env(y) == b.Env(y).Shorthand(x)
    ensures b.Shorthand(x).EnvSeparator(y) == b.EnvSeparator(y).Shorthand(x)
    ensures b.Prefix(x).DocPrefix(y) == b.DocPrefix(y).Prefix(x)
    ensures b.Prefix(x).Env(y) == b.Env(y).Prefix(x)
    ensures b.Prefix(x).EnvSeparator(y) == b.EnvSeparator(y).Prefix(x)
    ensures b.DocPrefix(x).Env(y) == b.Env(y).DocPrefix(x)
    ensures b.DocPrefix(x).EnvSeparator(y) == b.EnvSeparator(y).DocPrefix(x)
    ensures b.Env(x).EnvSeparator(y) == b.EnvSeparator(y).Env(x)
  {
  }

  /** The separator only matters to list flags: the scalar registrars never see it. */
  lemma SeparatorNotForwarded(b: Builder, v: string)
    ensures b.EnvSeparator(v).ScalarArguments() == b.ScalarArguments()
  {
  }

  /** `New("labels", …).DocPrefix("metadata").EnvSeparator("|")`. */
  lemma ChainedSetters(name: string, labelText: string)
    requires name == "labels"
    ensures var b := New(name, labelText).DocPrefix("metadata").EnvSeparator("|");
      b == Builder("", "metadata", "Labels", "", labelText, "", "|")
  {
  }
}
