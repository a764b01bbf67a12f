/**
 * The flag registrar of flag.go: flag and environment-variable names,
 * the help label, and the precedence that picks each flag's default
 * before the command line is parsed:
 *
 *   environment value (if set and parseable) > first matching override > static default.
 *
 * The process environment is a map; `os.LookupEnv(k)` is `k in env`.
 * Registering the result with Go's `flag.FlagSet` is outside the model:
 * `Scalar` returns what the typed wrappers hand to it.
 */
module Flags {
  import opened Wrappers
  import opened Strings
  import opened Overrides
  import opened Strconv

  type Environment = map<string, string>

  /** An environment-variable name as derived: no lower-case letter and no '-'. */
  predicate IsEnvName(e: string) {
    forall i :: 0 <= i < |e| ==> !IsLower(e[i]) && e[i] != '-'
  }

  /**
   * `getNameAndEnv` (three-argument form): the flag name is the already
   * capitalised prefix followed by the capitalised name; the variable name
   * is the upper snake case of the capitalised flag-set name followed by
   * the capitalised flag name.
   */
  function GetNameAndEnv(fsName: string, prefix: string, name: string): (r: (string, string))
    ensures r.0 == prefix + FirstUpperCase(name)
    ensures IsEnvName(r.1)
    ensures Letters(r.1) == ToUpper(Letters(FirstUpperCase(fsName) + FirstUpperCase(r.0)))
  {
    var flagName := prefix + FirstUpperCase(name);
    var source := FirstUpperCase(fsName) + FirstUpperCase(flagName);
    var envName := ToUpper(SnakeCase(source));
    LettersToUpper(SnakeCase(source));
    SnakeCaseKeepsLetters(source);
    (flagName, envName)
  }

  /**
   * `getNameAndEnv` in its four-argument form, used by slices.go and
   * builder.go: an explicit variable name is used verbatim, an empty one
   * falls back to the derived name.
   */
  function GetNameAndEnvWithEnv(fsName: string, prefix: string, name: string, env: string): (r: (string, string))
    ensures r.0 == GetNameAndEnv(fsName, prefix, name).0
    ensures env != "" ==> r.1 == env
    ensures env == "" ==> r.1 == GetNameAndEnv(fsName, prefix, name).1
  {
    var derived := GetNameAndEnv(fsName, prefix, name);
    if env != "" then (derived.0, env) else derived
  }

  /**
   * `formatLabel`: "[group] label {ENV}", where the group is the prefix
   * if there is one, else the documentation prefix, and the bracketed
   * part is left out when both are empty.
   */
  function FormatLabel(prefix: string, docPrefix: string, labelText: string, envName: string): (r: string)
    ensures var tail := labelText + " {" + envName + "}";
      && (prefix != "" ==> r == "[" + prefix + "] " + tail)
      && (prefix == "" && docPrefix != "" ==> r == "[" + docPrefix + "] " + tail)
      && (prefix == "" && docPrefix == "" ==> r == tail)
  {
    var group := if |prefix| == 0 then docPrefix else prefix;
    (if |group| != 0 then "[" + group + "] " else "") + labelText + " {" + envName + "}"
  }

  /** The label always ends with the label text and the variable placeholder. */
  lemma FormatLabelEnding(prefix: string, docPrefix: string, labelText: string, envName: string)
    ensures var r, tail := FormatLabel(prefix, docPrefix, labelText, envName), labelText + " {" + envName + "}";
      |tail| <= |r| && r[|r| - |tail|..] == tail
  {
  }

  /**
   * `defaultValue`: the parsed environment value when the variable is set
   * and parses, otherwise the static value. An unparseable value is ignored.
   */
  function DefaultValue<T>(env: Environment, envName: string, staticValue: T, parse: string -> Option<T>): (r: T)
    ensures envName in env && parse(env[envName]).Some? ==> r == parse(env[envName]).value
    ensures envName !in env || parse(env[envName]).None? ==> r == staticValue
  {
    if envName in env then parse(env[envName]).GetOr(staticValue) else staticValue
  }

  /**
   * The body of every `LookupEnv*` of flag.go: the environment when it
   * parses, else the first matching override, else the static default.
   * `LookupEnvFloat64`, `LookupEnvBool` and `LookupEnvDuration` are this
   * function with the standard library's parser as `parse`.
   */
  function LookupEnv<T>(env: Environment, name: string, envName: string, value: T,
                        overrides: seq<Override<T>>, parse: string -> Option<T>): (r: T)
    ensures envName in env && parse(env[envName]).Some? ==> r == parse(env[envName]).value
    ensures envName !in env || parse(env[envName]).None? ==> r == DefaultStaticValue(name, value, overrides)
  {
    DefaultValue(env, envName, DefaultStaticValue(name, value, overrides), parse)
  }

  /** The result always comes from one of the three sources, in that order of precedence. */
  lemma LookupEnvSource<T>(env: Environment, name: string, envName: string, value: T,
                           overrides: seq<Override<T>>, parse: string -> Option<T>)
    ensures var r := LookupEnv(env, name, envName, value, overrides, parse);
      || (envName in env && parse(env[envName]) == Some(r))
      || r == value
      || exists i :: 0 <= i < |overrides| && r == overrides[i].value
  {
  }

  function ParseString(s: string): (r: Option<string>)
    ensures r == Some(s)
  {
    Some(s)
  }

  /** `LookupEnvString`: a set variable is used verbatim and overrides are not consulted. */
  function LookupEnvString(env: Environment, name: string, envName: string, value: string,
                           overrides: seq<Override<string>>): (r: string)
    ensures envName in env ==> r == env[envName]
    ensures envName !in env ==> r == DefaultStaticValue(name, value, overrides)
  {
    LookupEnv(env, name, envName, value, overrides, ParseString)
  }

  predicate InInt(bits: nat, n: int)
    requires bits >= 1
  {
    -(Pow2(bits - 1) as int) <= n < Pow2(bits - 1)
  }

  predicate InUint(bits: nat, n: int) {
    0 <= n < Pow2(bits)
  }

  function ParseSigned(bits: nat): string -> Option<int>
    requires bits >= 1
  {
    s => ParseInt(s, bits)
  }

  function ParseUnsigned(bits: nat): string -> Option<int> {
    s => match ParseUint(s, bits) case Some(n) => Some(n as int) case None => None
  }

  /** `LookupEnvInt`: the variable is used only if it is a decimal within 32 bits. */
  function LookupEnvInt(env: Environment, name: string, envName: string, value: int,
                        overrides: seq<Override<int>>): (r: int)
    ensures envName in env && ParseInt(env[envName], 32).Some? ==> r == ParseInt(env[envName], 32).value && InInt(32, r)
    ensures envName !in env || ParseInt(env[envName], 32).None? ==> r == DefaultStaticValue(name, value, overrides)
  {
    LookupEnv(env, name, envName, value, overrides, ParseSigned(32))
  }

  /** `LookupEnvInt64`: the variable is used only if it is a decimal within 64 bits. */
  function LookupEnvInt64(env: Environment, name: string, envName: string, value: int,
                          overrides: seq<Override<int>>): (r: int)
    ensures envName in env && ParseInt(env[envName], 64).Some? ==> r == ParseInt(env[envName], 64).value && InInt(64, r)
    ensures envName !in env || ParseInt(env[envName], 64).None? ==> r == DefaultStaticValue(name, value, overrides)
  {
    LookupEnv(env, name, envName, value, overrides, ParseSigned(64))
  }

  /** `LookupEnvUint`: the variable is used only if it is unsigned, decimal and within 32 bits. */
  function LookupEnvUint(env: Environment, name: string, envName: string, value: int,
                         overrides: seq<Override<int>>): (r: int)
    ensures envName in env && ParseUint(env[envName], 32).Some? ==> r == ParseUint(env[envName], 32).value && InUint(32, r)
    ensures envName !in env || ParseUint(env[envName], 32).None? ==> r == DefaultStaticValue(name, value, overrides)
  {
    LookupEnv(env, name, envName, value, overrides, ParseUnsigned(32))
  }

  /** `LookupEnvUint64`: the variable is used only if it is unsigned, decimal and within 64 bits. */
  function LookupEnvUint64(env: Environment, name: string, envName: string, value: int,
                           overrides: seq<Override<int>>): (r: int)
    ensures envName in env && ParseUint(env[envName], 64).Some? ==> r == ParseUint(env[envName], 64).value && InUint(64, r)
    ensures envName !in env || ParseUint(env[envName], 64).None? ==> r == DefaultStaticValue(name, value, overrides)
  {
    LookupEnv(env, name, envName, value, overrides, ParseUnsigned(64))
  }

  /** A 32-bit default and 32-bit overrides give a 32-bit result, whatever the environment holds. */
  lemma LookupEnvUintBound(env: Environment, name: string, envName: string, value: int,
                           overrides: seq<Override<int>>)
    requires InUint(32, value)
    requires forall i :: 0 <= i < |overrides| ==> InUint(32, overrides[i].value)
    ensures InUint(32, LookupEnvUint(env, name, envName, value, overrides))
  {
  }

  /** The same for the signed 32-bit lookup. */
  lemma LookupEnvIntBound(env: Environment, name: string, envName: string, value: int,
                          overrides: seq<Override<int>>)
    requires InInt(32, value)
    requires forall i :: 0 <= i < |overrides| ==> InInt(32, overrides[i].value)
    ensures InInt(32, LookupEnvInt(env, name, envName, value, overrides))
  {
  }

  /** What a typed wrapper of flag.go hands to the flag set: name, default and usage. */
  datatype Registration<T> = Registration(name: string, defValue: T, usage: string)

  /**
   * `String`, `Int`, `Int64`, `Uint`, `Uint64`, `Float64`, `Bool` and
   * `Duration`: the flag is registered under the flag name with its first
   * letter lowered, with the resolved default and the formatted label.
   */
  function Scalar<T>(fsName: string, env: Environment, prefix: string, docPrefix: string, name: string,
                     labelText: string, value: T, overrides: seq<Override<T>>, parse: string -> Option<T>): (r: Registration<T>)
    ensures r.name == FirstLowerCase(FirstUpperCase(prefix) + FirstUpperCase(name))
    ensures var envName := GetNameAndEnv(fsName, FirstUpperCase(prefix), name).1;
      && IsEnvName(envName)
      && (envName in env && parse(env[envName]).Some? ==> r.defValue == parse(env[envName]).value)
      && (envName !in env || parse(env[envName]).None? ==> r.defValue == DefaultStaticValue(name, value, overrides))
    ensures var tail := labelText + " {" + GetNameAndEnv(fsName, FirstUpperCase(prefix), name).1 + "}";
      && |tail| <= |r.usage| && r.usage[|r.usage| - |tail|..] == tail
      && (prefix != "" ==> r.usage == "[" + prefix + "] " + tail)
      && (prefix == "" && docPrefix != "" ==> r.usage == "[" + docPrefix + "] " + tail)
      && (prefix == "" && docPrefix == "" ==> r.usage == tail)
  {
    var (flagName, envName) := GetNameAndEnv(fsName, FirstUpperCase(prefix), name);
    FormatLabelEnding(prefix, docPrefix, labelText, envName);
    Registration(FirstLowerCase(flagName), LookupEnv(env, name, envName, value, overrides, parse),
                 FormatLabel(prefix, docPrefix, labelText, envName))
  }

  lemma CutSetAndFlag(s: string)
    requires s == "StringContextTest"
    ensures s == s[..6] + s[6..13] + s[13..]
    ensures s[..6] == "String" && s[6..13] == "Context" && s[13..] == "Test"
  {
  }

  lemma SetAndFlagWords(a: string, b: string, c: string)
    requires a == "String" && b == "Context" && c == "Test"
    ensures IsWord(a) && IsWord(b) && IsWord(c)
    ensures a + "_" + b + "_" + c == "String_Context_Test"
  {
  }

  lemma SnakeCaseOfSetAndFlag(s: string)
    requires s == "StringContextTest"
    ensures SnakeCase(s) == "String_Context_Test"
  {
    CutSetAndFlag(s);
    SetAndFlagWords(s[..6], s[6..13], s[13..]);
    SnakeCaseOfThreeWords(s[..6], s[6..13], s[13..]);
  }

  lemma UpperOfSetAndFlag(s: string)
    requires s == "String_Context_Test"
    ensures ToUpper(s) == "STRING_CONTEXT_TEST"
  {
  }

  lemma PrefixedFlagCases(fsName: string, prefix: string, name: string)
    requires fsName == "String" && prefix == "context" && name == "test"
    ensures FirstUpperCase(prefix) == "Context" && FirstUpperCase(name) == "Test"
    ensures FirstUpperCase(fsName) == "String"
  {
    assert FirstUpperCase(prefix) == "Context";
    assert FirstUpperCase(name) == "Test";
    FirstUpperCaseIdentity(fsName);
  }

  lemma PrefixedFlagJoins(p: string, n: string, f: string)
    requires p == "Context" && n == "Test" && f == "String"
    ensures p + n == "ContextTest" && f + (p + n) == "StringContextTest"
    ensures FirstUpperCase(p + n) == p + n && FirstLowerCase(p + n) == "contextTest"
  {
    FirstUpperCaseIdentity(p + n);
    assert FirstLowerCase(p + n) == "contextTest";
  }

  /**
   * Flag set "String", prefix "context", name "test": the flag is
   * registered as "contextTest" and read from STRING_CONTEXT_TEST.
   */
  lemma NamesOfPrefixedFlag(fsName: string, prefix: string, name: string)
    requires fsName == "String" && prefix == "context" && name == "test"
    ensures var names := GetNameAndEnv(fsName, FirstUpperCase(prefix), name);
      FirstLowerCase(names.0) == "contextTest" && names.1 == "STRING_CONTEXT_TEST"
  {
    PrefixedFlagCases(fsName, prefix, name);
    var p, n, f := FirstUpperCase(prefix), FirstUpperCase(name), FirstUpperCase(fsName);
    PrefixedFlagJoins(p, n, f);
    var source := f + FirstUpperCase(p + n);
    SnakeCaseOfSetAndFlag(source);
    UpperOfSetAndFlag(SnakeCase(source));
  }

  /** Two capitalised words: the regular-expression pass marks both, the first mark is trimmed. */
  lemma SnakeCaseTwoMarked(a: string, b: string)
    requires MarkRuns(a + b, false) == "_" + a + "_" + b
    ensures SnakeCase(a + b) == CollapseUnderscores(DashToUnderscore(a + "_" + b))
  {
    var t := a + "_" + b;
    assert "_" + a + "_" + b == "_" + t;
    assert ("_" + t)[0] == '_' && ("_" + t)[1..] == t;
  }

  lemma CutDashedSet(s: string)
    requires s == "My-cliUrl"
    ensures s == s[..6] + s[6..] && s[..6] == "My-cli" && s[6..] == "Url"
  {
  }

  lemma DashedSetPieces(a: string, b: string)
    requires a == "My-cli" && b == "Url"
    ensures Capitalised(a) && |a| >= 2 && Capitalised(b)
    ensures a + "_" + b == "My-cli_Url"
  {
  }

  lemma DashedSetRewrite(t: string)
    requires t == "My-cli_Url"
    ensures CollapseUnderscores(DashToUnderscore(t)) == "My_cli_Url"
  {
    assert DashToUnderscore(t) == "My_cli_Url";
    CollapseIdentity("My_cli_Url");
  }

  lemma SnakeCaseOfDashedSet(s: string)
    requires s == "My-cliUrl"
    ensures SnakeCase(s) == "My_cli_Url"
  {
    CutDashedSet(s);
    var a, b := s[..6], s[6..];
    DashedSetPieces(a, b);
    MarkRunsTwoWords(a, b);
    SnakeCaseTwoMarked(a, b);
    DashedSetRewrite(a + "_" + b);
  }

  lemma UpperOfDashedSet(s: string)
    requires s == "My_cli_Url"
    ensures ToUpper(s) == "MY_CLI_URL"
  {
  }

  lemma DashedSetCases(fsName: string, name: string)
    requires fsName == "my-cli" && name == "url"
    ensures FirstUpperCase(name) == "Url" && FirstUpperCase(fsName) == "My-cli"
    ensures "" + FirstUpperCase(name) == "Url" && FirstUpperCase("" + FirstUpperCase(name)) == "Url"
  {
    assert FirstUpperCase(name) == "Url";
    assert FirstUpperCase(fsName) == "My-cli";
    assert "" + "Url" == "Url";
    FirstUpperCaseIdentity("Url");
  }

  /** Flag set "my-cli", name "url": the dash of the set name becomes '_' in MY_CLI_URL. */
  lemma EnvNameWithDash(fsName: string, name: string)
    requires fsName == "my-cli" && name == "url"
    ensures GetNameAndEnv(fsName, "", name) == ("Url", "MY_CLI_URL")
  {
    DashedSetCases(fsName, name);
    var source := FirstUpperCase(fsName) + FirstUpperCase("" + FirstUpperCase(name));
    assert source == "My-cli" + "Url" == "My-cliUrl";
    SnakeCaseOfDashedSet(source);
    UpperOfDashedSet(SnakeCase(source));
    assert GetNameAndEnv(fsName, "", name).1 == ToUpper(SnakeCase(source));
  }
}
