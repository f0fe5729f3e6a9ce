/** A model of package udotenv (go-udotenv): choosing the configuration, building the
    alias-to-role table, and rewriting the command line before the flag parser sees it,
    so that an env-file flag given without a value receives the default path.

    A Go string is a sequence of bytes; here it is a `string` in which each character
    stands for one byte. The code only compares a byte with '-' and slices by byte
    offsets, so `token[1..]` and `token[2..]` are exactly Go's `argName[1:]` and `argName[2:]`.
 */
module Udotenv {

  datatype Option<T> = None | Some(value: T)

  datatype Result<T> = Ok(value: T) | Err(error: Error)

  /** The panics of the package, as values. */
  datatype Error =
    | MultipleConfigs                       // more than one *Config passed to New
    | FlagRedefined(name: string)           // the flag package refuses a name registered twice
    | DuplicateOverloadFlag                 // a second overload-role flag on the command line
    | EnvFileLoadError(paths: seq<string>)  // the external loader rejected one of the files

  /** The two roles a registered flag name can have (envsId and overloadId). */
  datatype Role = EnvFile | Overload

  /** Path used when an env-file flag is given without a value. */
  const DefaultEnvPath: string := ".env"

  /* ---------------------------------------------------------------------------
     stringSlice: the flag.Value that collects every env-file flag's value
     --------------------------------------------------------------------------- */

  /** Sum of the lengths of the strings. */
  function TotalLength(xs: seq<string>): nat
  {
    if |xs| == 0 then 0 else |xs[0]| + TotalLength(xs[1..])
  }

  /** strings.Join: the elements in order, one separator between neighbours. */
  function Join(xs: seq<string>, sep: string): (r: string)
    ensures |r| == TotalLength(xs) + if xs == [] then 0 else (|xs| - 1) * |sep|
    ensures xs != [] ==> r[..|xs[0]|] == xs[0]
  {
    if |xs| == 0 then ""
    else if |xs| == 1 then xs[0]
    else xs[0] + sep + Join(xs[1..], sep)
  }

  /** Appending an element extends the joined text by one separator and that element. */
  lemma {:induction false} JoinAppend(xs: seq<string>, x: string, sep: string)
    ensures Join(xs + [x], sep) == if xs == [] then x else Join(xs, sep) + sep + x
  {
    if |xs| == 0 {
      assert xs + [x] == [x];
    } else if |xs| == 1 {
      assert (xs + [x])[1..] == [x];
    } else {
      assert (xs + [x])[1..] == xs[1..] + [x];
      JoinAppend(xs[1..], x, sep);
    }
  }

  class StringSlice {
    var items: seq<string>

    constructor ()
      ensures items == []
    {
      items := [];
    }

    /** The flag.Value text: the values separated by ", ". */
    function String(): (s: string)
      reads this
      ensures |s| == TotalLength(items) + if items == [] then 0 else 2 * (|items| - 1)
      ensures items != [] ==> s[..|items[0]|] == items[0]
    {
      Join(items, ", ")
    }

    /** Called by the flag parser once per occurrence of an env-file flag. */
    method Set(value: string) returns (err: Option<Error>)
      modifies this
      ensures items == old(items) + [value]
      ensures err == None
      ensures String() == if old(items) == [] then value else old(String()) + ", " + value
    {
      JoinAppend(items, value, ", ");
      items := items + [value];
      err := None;
    }
  }

  /* ---------------------------------------------------------------------------
     Config and the object New returns
     --------------------------------------------------------------------------- */

  class Config {
    var envFlags: seq<string>
    var overloadFlags: seq<string>
    var defaultEnvPath: string
    var overloadByDefault: bool

    constructor (envFlags: seq<string>, overloadFlags: seq<string>, defaultEnvPath: string, overloadByDefault: bool)
      ensures this.envFlags == envFlags && this.overloadFlags == overloadFlags
      ensures this.defaultEnvPath == defaultEnvPath && this.overloadByDefault == overloadByDefault
    {
      this.envFlags := envFlags;
      this.overloadFlags := overloadFlags;
      this.defaultEnvPath := defaultEnvPath;
      this.overloadByDefault := overloadByDefault;
    }
  }

  method GetDefaultConfig() returns (c: Config)
    ensures fresh(c)
    ensures c.envFlags == ["envs", "e"] && c.overloadFlags == ["env-overload", "eo", "o"]
    ensures c.defaultEnvPath == ".env" && !c.overloadByDefault
  {
    c := new Config(["envs", "e"], ["env-overload", "eo", "o"], DefaultEnvPath, false);
  }

  /** What Load hands to the external loader: godotenv.Load keeps variables that are
      already set, godotenv.Overload overwrites them. */
  datatype LoadMode = KeepExisting | Overwrite

  datatype LoadOutcome =
    | Skipped
    | Loaded(mode: LoadMode, paths: seq<string>)
    | Failed(error: Error)

  /** udotEnvType. */
  class Udotenv {
    var config: Config
    const envParam: StringSlice
    var overloadParam: bool

    constructor (config: Config)
      ensures this.config == config
      ensures fresh(envParam) && envParam.items == [] && !overloadParam
    {
      this.config := config;
      envParam := new StringSlice();
      overloadParam := false;
    }

    /** The loader call made for the collected files; `loaderFails` is the external
        loader's verdict on them. */
    function Load(loaderFails: bool): (r: LoadOutcome)
      reads this, envParam
      ensures r.Skipped? <==> envParam.items == []
      ensures r.Failed? <==> envParam.items != [] && loaderFails
      ensures r.Failed? ==> r.error == EnvFileLoadError(envParam.items)
      ensures r.Loaded? ==> r.paths == envParam.items && (r.mode == Overwrite <==> overloadParam)
    {
      if |envParam.items| == 0 then Skipped
      else
        var mode := if overloadParam then Overwrite else KeepExisting;
        if loaderFails then Failed(EnvFileLoadError(envParam.items)) else Loaded(mode, envParam.items)
    }
  }

  /* ---------------------------------------------------------------------------
     The alias table (flagStorage)
     --------------------------------------------------------------------------- */

  /** Every alias of either list is stored with its role. Registration refuses a repeated
      name, so in a table that gets built each alias is listed once. */
  function FlagTable(envFlags: seq<string>, overloadFlags: seq<string>): map<string, Role>
  {
    map a | a in envFlags + overloadFlags :: if a in overloadFlags then Overload else EnvFile
  }

  /** No name occurs twice. */
  ghost predicate Distinct(names: seq<string>)
  {
    forall i, j :: 0 <= i < j < |names| ==> names[i] != names[j]
  }

  /** `name` occurs at two positions of `names`. */
  ghost predicate Repeated(names: seq<string>, name: string)
  {
    exists i, j :: 0 <= i < j < |names| && names[i] == name && names[j] == name
  }

  lemma DistinctAppend(names: seq<string>, v: string)
    requires Distinct(names) && v !in names
    ensures Distinct(names + [v])
  {
    forall i, j | 0 <= i < j < |names + [v]|
      ensures (names + [v])[i] != (names + [v])[j]
    {
      if j == |names| {
        assert (names + [v])[i] == names[i];
      }
    }
  }

  lemma FlagTableAppend(envFlags: seq<string>, overloadFlags: seq<string>, v: string)
    ensures FlagTable(envFlags + [v], []) == FlagTable(envFlags, [])[v := EnvFile]
    ensures FlagTable(envFlags, overloadFlags + [v]) == FlagTable(envFlags, overloadFlags)[v := Overload]
  {
    assert envFlags + [v] + [] == envFlags + [] + [v];
    assert envFlags + (overloadFlags + [v]) == envFlags + overloadFlags + [v];
  }

  /** The two registration loops of New: each alias is registered with the flag package
      (flag.Var, flag.BoolVar) and stored in flagStorage with its role. The flag package
      refuses a name it already holds ("flag redefined"); within New the names it holds are
      exactly the keys of flagStorage. */
  method RegisterFlags(envFlags: seq<string>, overloadFlags: seq<string>)
    returns (r: Result<map<string, Role>>)
    ensures r.Ok? <==> Distinct(envFlags + overloadFlags)
    ensures r.Ok? ==> r.value == FlagTable(envFlags, overloadFlags)
    ensures r.Err? ==> r.error.FlagRedefined? && Repeated(envFlags + overloadFlags, r.error.name)
  {
    var all := envFlags + overloadFlags;
    var flagStorage: map<string, Role> := map[];
    var k := 0;
    assert envFlags[..0] + [] == [];
    while k < |envFlags|
      invariant 0 <= k <= |envFlags|
      invariant Distinct(envFlags[..k])
      invariant flagStorage == FlagTable(envFlags[..k], [])
    {
      var v := envFlags[k];
      assert envFlags[..k] + [] == envFlags[..k];
      if v in flagStorage {
        var i :| 0 <= i < k && envFlags[..k][i] == v;
        assert all[i] == v && all[k] == v;
        assert !Distinct(all);
        return Err(FlagRedefined(v));
      }
      assert envFlags[..k + 1] == envFlags[..k] + [v];
      DistinctAppend(envFlags[..k], v);
      FlagTableAppend(envFlags[..k], [], v);
      flagStorage := flagStorage[v := EnvFile];
      k := k + 1;
    }
    assert envFlags[..k] == envFlags && overloadFlags[..0] == [] && envFlags + [] == envFlags;
    k := 0;
    while k < |overloadFlags|
      invariant 0 <= k <= |overloadFlags|
      invariant Distinct(envFlags + overloadFlags[..k])
      invariant flagStorage == FlagTable(envFlags, overloadFlags[..k])
    {
      var v := overloadFlags[k];
      var done := envFlags + overloadFlags[..k];
      if v in flagStorage {
        var i :| 0 <= i < |done| && done[i] == v;
        assert done[i] == all[i];
        assert all[i] == v && all[|envFlags| + k] == v;
        assert !Distinct(all);
        return Err(FlagRedefined(v));
      }
      assert overloadFlags[..k + 1] == overloadFlags[..k] + [v];
      assert envFlags + overloadFlags[..k + 1] == done + [v];
      DistinctAppend(done, v);
      FlagTableAppend(envFlags, overloadFlags[..k], v);
      flagStorage := flagStorage[v := Overload];
      k := k + 1;
    }
    assert overloadFlags[..k] == overloadFlags;
    r := Ok(flagStorage);
  }

  /* ---------------------------------------------------------------------------
     The argument rewrite
     --------------------------------------------------------------------------- */

  /** strings.HasPrefix(s, "-") */
  predicate HasDashPrefix(s: string)
  {
    |s| > 0 && s[0] == '-'
  }

  /** The role of a command-line token: look the token up with its first byte removed,
      then with its first two bytes removed. The second byte is not required to be a dash. */
  function Resolve(table: map<string, Role>, token: string): (r: Option<Role>)
    ensures r.Some? ==> HasDashPrefix(token) && |token| >= 2 && r.value in table.Values
  {
    if !HasDashPrefix(token) || |token| < 2 then None
    else if token[1..] in table then Some(table[token[1..]])
    else if token[2..] in table then Some(table[token[2..]])
    else None
  }

  /** The token at raw position j (j >= 1) is an env-file flag that gets the default path
      inserted after it: it is the last token, or the next token starts with a dash. */
  predicate TakesDefault(args: seq<string>, table: map<string, Role>, j: nat)
    requires 1 <= j < |args|
  {
    Resolve(table, args[j]) == Some(EnvFile) && (j == |args| - 1 || HasDashPrefix(args[j + 1]))
  }

  predicate IsOverloadAt(args: seq<string>, table: map<string, Role>, j: nat)
    requires j < |args|
  {
    Resolve(table, args[j]) == Some(Overload)
  }

  /** The output tokens for raw position j. */
  function Chunk(args: seq<string>, table: map<string, Role>, path: string, j: nat): seq<string>
    requires 1 <= j < |args|
  {
    if TakesDefault(args, table, j) then [args[j], path] else [args[j]]
  }

  /** The output produced for the first n raw tokens (the program name is copied as is). */
  function Expanded(args: seq<string>, table: map<string, Role>, path: string, n: nat): seq<string>
    requires n <= |args|
    decreases n
  {
    if n == 0 then []
    else if n == 1 then [args[0]]
    else Expanded(args, table, path, n - 1) + Chunk(args, table, path, n - 1)
  }

  /** Alongside Expanded: true exactly at the positions of inserted default paths. */
  ghost function Inserted(args: seq<string>, table: map<string, Role>, n: nat): seq<bool>
    requires n <= |args|
    decreases n
  {
    if n == 0 then []
    else if n == 1 then [false]
    else Inserted(args, table, n - 1) + (if TakesDefault(args, table, n - 1) then [false, true] else [false])
  }

  /** Number of default paths inserted for raw positions 1 .. n-1. */
  ghost function Inserts(args: seq<string>, table: map<string, Role>, n: nat): nat
    requires n <= |args|
    decreases n
  {
    if n <= 1 then 0
    else Inserts(args, table, n - 1) + (if TakesDefault(args, table, n - 1) then 1 else 0)
  }

  /** Number of overload-role tokens among raw positions 1 .. n-1. */
  ghost function Overloads(args: seq<string>, table: map<string, Role>, n: nat): nat
    requires n <= |args|
    decreases n
  {
    if n <= 1 then 0
    else Overloads(args, table, n - 1) + (if IsOverloadAt(args, table, n - 1) then 1 else 0)
  }

  /** Where raw token j (j >= 1) lands in the output. */
  ghost function Position(args: seq<string>, table: map<string, Role>, j: nat): nat
    requires j <= |args|
  {
    j + Inserts(args, table, j)
  }

  /** The whole rewrite: it fails when two overload-role tokens are present. */
  ghost function Rewritten(args: seq<string>, table: map<string, Role>, path: string): Result<seq<string>>
  {
    if Overloads(args, table, |args|) >= 2 then Err(DuplicateOverloadFlag)
    else Ok(Expanded(args, table, path, |args|))
  }

  /** The loop of New over os.Args[1:]. */
  method RewriteArgs(args: seq<string>, flagStorage: map<string, Role>, defaultEnvPath: string)
    returns (r: Result<seq<string>>)
    ensures |args| <= 1 ==> r == Ok(args)
    ensures r == Rewritten(args, flagStorage, defaultEnvPath)
  {
    if |args| <= 1 {
      assert |args| == 1 ==> args == [args[0]];
      return Ok(args);
    }
    var newArgs := [args[0]];
    var passedParams: set<Role> := {};
    var i := 0;
    while i < |args| - 1
      invariant 0 <= i <= |args| - 1
      invariant newArgs == Expanded(args, flagStorage, defaultEnvPath, i + 1)
      invariant Overloads(args, flagStorage, i + 1) <= 1
      invariant passedParams == if Overloads(args, flagStorage, i + 1) == 1 then {Overload} else {}
    {
      var argName := args[i + 1];
      ghost var before := newArgs;
      assert Expanded(args, flagStorage, defaultEnvPath, i + 2)
          == before + Chunk(args, flagStorage, defaultEnvPath, i + 1);
      assert Overloads(args, flagStorage, i + 2)
          == Overloads(args, flagStorage, i + 1) + if IsOverloadAt(args, flagStorage, i + 1) then 1 else 0;
      newArgs := newArgs + [argName];
      if HasDashPrefix(argName) && |argName| >= 2 {
        var argId := Resolve(flagStorage, argName);
        if argId.Some? && argId.value in passedParams {
          OverloadsGrow(args, flagStorage, i + 2, |args|);
          return Err(DuplicateOverloadFlag);
        } else if argId.Some? && argId.value != EnvFile {
          passedParams := passedParams + {argId.value};
        }
        if argId == Some(EnvFile)
           && (|args| - 2 == i || (|args| - 2 > i && HasDashPrefix(args[i + 2])))
        {
          newArgs := newArgs + [defaultEnvPath];
        }
      }
      assert newArgs == before + Chunk(args, flagStorage, defaultEnvPath, i + 1);
      i := i + 1;
    }
    r := Ok(newArgs);
  }

  /* ---------------------------------------------------------------------------
     New
     --------------------------------------------------------------------------- */

  datatype Started = Started(udotEnv: Udotenv, args: seq<string>)

  /** New without flag.Parse: the arguments come in as `args` and the rewritten list is
      returned instead of being stored in os.Args. */
  method New(configs: seq<Config>, args: seq<string>) returns (r: Result<Started>)
    modifies configs
    ensures |configs| >= 2 ==> r == Err(MultipleConfigs) && unchanged(configs)
    ensures |configs| == 0 ==>
      match Rewritten(args, FlagTable(["envs", "e"], ["env-overload", "eo", "o"]), DefaultEnvPath)
      case Ok(out) => r.Ok? && r.value.args == out
      case Err(e) => r == Err(e)
    ensures |configs| == 0 && r.Ok? ==>
      var c := r.value.udotEnv.config;
      fresh(c) && c.envFlags == ["envs", "e"] && c.overloadFlags == ["env-overload", "eo", "o"]
      && c.defaultEnvPath == DefaultEnvPath && !c.overloadByDefault
    ensures |configs| == 1 ==>
      var c := configs[0];
      c.envFlags == old(c.envFlags) && c.overloadFlags == old(c.overloadFlags)
      && c.overloadByDefault == old(c.overloadByDefault)
      && c.defaultEnvPath == (if old(c.defaultEnvPath) == "" then DefaultEnvPath else old(c.defaultEnvPath))
    ensures |configs| == 1 && !Distinct(configs[0].envFlags + configs[0].overloadFlags) ==>
      r.Err? && r.error.FlagRedefined? && Repeated(configs[0].envFlags + configs[0].overloadFlags, r.error.name)
    ensures |configs| == 1 && Distinct(configs[0].envFlags + configs[0].overloadFlags) ==>
      var c := configs[0];
      match Rewritten(args, FlagTable(c.envFlags, c.overloadFlags), c.defaultEnvPath)
      case Ok(out) => r.Ok? && r.value.args == out && r.value.udotEnv.config == c
      case Err(e) => r == Err(e)
    ensures r.Ok? ==>
      var u := r.value.udotEnv;
      fresh(u) && fresh(u.envParam) && u.envParam.items == []
      && u.overloadParam == (|u.config.overloadFlags| > 0 && u.config.overloadByDefault)
  {
    var config: Config;
    if |configs| == 0 {
      config := GetDefaultConfig();
      assert config.envFlags + config.overloadFlags == ["envs", "e", "env-overload", "eo", "o"];
    } else if |configs| == 1 {
      config := configs[0];
      if config.defaultEnvPath == "" {
        config.defaultEnvPath := DefaultEnvPath;
      }
    } else {
      return Err(MultipleConfigs);
    }
    var udotEnv := new Udotenv(config);
    var registered := RegisterFlags(config.envFlags, config.overloadFlags);
    if registered.Err? {
      return Err(registered.error);
    }
    var flagStorage := registered.value;
    if |config.overloadFlags| > 0 {
      // flag.BoolVar stores its default in the variable as soon as the flag is registered
      udotEnv.overloadParam := config.overloadByDefault;
    }
    var rewritten := RewriteArgs(args, flagStorage, config.defaultEnvPath);
    match rewritten
    case Err(e) =>
      r := Err(e);
    case Ok(newArgs) =>
      r := Ok(Started(udotEnv, newArgs));
  }

  /* ---------------------------------------------------------------------------
     Properties of the rewrite
     --------------------------------------------------------------------------- */

  /** Keeps the tokens whose mark is false, in order. */
  ghost function Kept(out: seq<string>, marks: seq<bool>): seq<string>
    requires |out| == |marks|
  {
    if |out| == 0 then []
    else (if marks[0] then [] else [out[0]]) + Kept(out[1..], marks[1..])
  }

  lemma {:induction false} KeptConcat(a: seq<string>, ma: seq<bool>, b: seq<string>, mb: seq<bool>)
    requires |a| == |ma| && |b| == |mb|
    ensures Kept(a + b, ma + mb) == Kept(a, ma) + Kept(b, mb)
  {
    if |a| == 0 {
      assert a + b == b && ma + mb == mb;
    } else {
      assert (a + b)[1..] == a[1..] + b;
      assert (ma + mb)[1..] == ma[1..] + mb;
      KeptConcat(a[1..], ma[1..], b, mb);
    }
  }

  lemma {:induction false} OverloadsGrow(args: seq<string>, table: map<string, Role>, n: nat, m: nat)
    requires n <= m <= |args|
    ensures Overloads(args, table, n) <= Overloads(args, table, m)
    decreases m
  {
    if n < m {
      OverloadsGrow(args, table, n, m - 1);
    }
  }

  /** Lengths, and the program name stays first and is never an inserted token. */
  lemma {:induction false} ExpandedShape(args: seq<string>, table: map<string, Role>, path: string, n: nat)
    requires n <= |args|
    ensures |Expanded(args, table, path, n)| == |Inserted(args, table, n)| == n + Inserts(args, table, n)
    ensures n >= 1 ==> Expanded(args, table, path, n)[0] == args[0] && !Inserted(args, table, n)[0]
  {
    if n > 1 {
      ExpandedShape(args, table, path, n - 1);
    }
  }

  /** Output built for a shorter prefix of the input is a prefix of the output for a longer one. */
  lemma {:induction false} ExpandedGrows(args: seq<string>, table: map<string, Role>, path: string, n: nat, m: nat)
    requires n <= m <= |args|
    ensures Expanded(args, table, path, n) <= Expanded(args, table, path, m)
    ensures Inserted(args, table, n) <= Inserted(args, table, m)
    decreases m
  {
    if n < m {
      ExpandedGrows(args, table, path, n, m - 1);
    }
  }

  /** Of the tokens produced for one raw token, only the copy is kept. */
  lemma KeptOfChunk(token: string, path: string, takes: bool)
    ensures Kept(if takes then [token, path] else [token], if takes then [false, true] else [false]) == [token]
  {
    assert Kept([token], [false]) == [token] + Kept([], []);
    assert Kept([path], [true]) == [] + Kept([], []);
    assert Kept([token, path], [false, true]) == [token] + Kept([path], [true]);
  }

  /** Deleting the inserted tokens gives back the input prefix. */
  lemma {:induction false} ErasureRecoversInput(args: seq<string>, table: map<string, Role>, path: string, n: nat)
    requires n <= |args|
    ensures |Expanded(args, table, path, n)| == |Inserted(args, table, n)|
    ensures Kept(Expanded(args, table, path, n), Inserted(args, table, n)) == args[..n]
  {
    if n == 1 {
      assert args[..1] == [args[0]];
    } else if n > 1 {
      ErasureRecoversInput(args, table, path, n - 1);
      var a, ma := Expanded(args, table, path, n - 1), Inserted(args, table, n - 1);
      var takes := TakesDefault(args, table, n - 1);
      var chunk := if takes then [args[n - 1], path] else [args[n - 1]];
      var marks := if takes then [false, true] else [false];
      assert Expanded(args, table, path, n) == a + chunk;
      assert Inserted(args, table, n) == ma + marks;
      KeptConcat(a, ma, chunk, marks);
      KeptOfChunk(args[n - 1], path, takes);
      calc {
        Kept(a + chunk, ma + marks);
        Kept(a, ma) + [args[n - 1]];
        args[..n - 1] + [args[n - 1]];
        { assert args[..n] == args[..n - 1] + [args[n - 1]]; }
        args[..n];
      }
    }
  }

  /** Raw token j is at Position(j) in every output built past it, followed by the default
      path when it takes one. */
  lemma TokenLands(args: seq<string>, table: map<string, Role>, path: string, j: nat, m: nat)
    requires 1 <= j < m <= |args|
    ensures |Expanded(args, table, path, m)| == |Inserted(args, table, m)|
    ensures Position(args, table, j) < |Expanded(args, table, path, m)|
    ensures Expanded(args, table, path, m)[Position(args, table, j)] == args[j]
    ensures !Inserted(args, table, m)[Position(args, table, j)]
    ensures TakesDefault(args, table, j) ==>
      Position(args, table, j) + 1 < |Expanded(args, table, path, m)|
      && Expanded(args, table, path, m)[Position(args, table, j) + 1] == path
      && Inserted(args, table, m)[Position(args, table, j) + 1]
  {
    ExpandedShape(args, table, path, j);
    ExpandedShape(args, table, path, j + 1);
    ExpandedShape(args, table, path, m);
    ExpandedGrows(args, table, path, j + 1, m);
  }

  /** Raw token j lands at Position(j), unchanged; the default path follows it exactly
      when TakesDefault(j); otherwise the next raw token follows it directly. */
  lemma TokenPlacement(args: seq<string>, table: map<string, Role>, path: string, j: nat)
    requires 1 <= j < |args|
    ensures |Expanded(args, table, path, |args|)| == |Inserted(args, table, |args|)|
    ensures Position(args, table, j) < |Expanded(args, table, path, |args|)|
    ensures Expanded(args, table, path, |args|)[Position(args, table, j)] == args[j]
    ensures !Inserted(args, table, |args|)[Position(args, table, j)]
    ensures TakesDefault(args, table, j) <==>
      Position(args, table, j) + 1 < |Inserted(args, table, |args|)|
      && Inserted(args, table, |args|)[Position(args, table, j) + 1]
    ensures TakesDefault(args, table, j) ==>
      Expanded(args, table, path, |args|)[Position(args, table, j) + 1] == path
    ensures j + 1 < |args| ==>
      Position(args, table, j + 1) == Position(args, table, j) + if TakesDefault(args, table, j) then 2 else 1
  {
    var n := |args|;
    TokenLands(args, table, path, j, n);
    if !TakesDefault(args, table, j) {
      if j + 1 < n {
        TokenLands(args, table, path, j + 1, n);
      } else {
        ExpandedShape(args, table, path, n);
      }
    }
  }

  /** Every inserted token is the default path, right after an env-file flag that was copied. */
  lemma {:induction false} InsertionsFollowEnvFlags(args: seq<string>, table: map<string, Role>, path: string, n: nat)
    requires n <= |args|
    ensures |Expanded(args, table, path, n)| == |Inserted(args, table, n)|
    ensures forall p :: 0 <= p < |Inserted(args, table, n)| && Inserted(args, table, n)[p] ==>
      2 <= p && Expanded(args, table, path, n)[p] == path && !Inserted(args, table, n)[p - 1]
      && Resolve(table, Expanded(args, table, path, n)[p - 1]) == Some(EnvFile)
  {
    ExpandedShape(args, table, path, n);
    if n > 1 {
      InsertionsFollowEnvFlags(args, table, path, n - 1);
      ExpandedShape(args, table, path, n - 1);
      var a, ma := Expanded(args, table, path, n - 1), Inserted(args, table, n - 1);
      var out, marks := Expanded(args, table, path, n), Inserted(args, table, n);
      var takes := TakesDefault(args, table, n - 1);
      assert out == a + Chunk(args, table, path, n - 1);
      assert marks == ma + (if takes then [false, true] else [false]);
      forall p | 0 <= p < |marks| && marks[p]
        ensures 2 <= p && out[p] == path && !marks[p - 1] && Resolve(table, out[p - 1]) == Some(EnvFile)
      {
        if p < |ma| {
          assert marks[p] == ma[p] && out[p] == a[p];
          assert marks[p - 1] == ma[p - 1] && out[p - 1] == a[p - 1];
        } else {
          assert takes && p == |ma| + 1;
          assert out[p - 1] == args[n - 1];
        }
      }
    }
  }

  /** Invariant for EnvFlagNeverSwallowsFlag over a prefix: an env-file flag that is the
      last token so far is waiting for a next raw token that does not start with a dash. */
  ghost predicate ValuesSoFar(args: seq<string>, table: map<string, Role>, path: string,
                              out: seq<string>, marks: seq<bool>, n: nat)
    requires |out| == |marks| && n <= |args|
  {
    forall p :: 1 <= p < |marks| && !marks[p] && Resolve(table, out[p]) == Some(EnvFile) ==>
      (p + 1 < |marks| && (if marks[p + 1] then out[p + 1] == path else !HasDashPrefix(out[p + 1])))
      || (p + 1 == |marks| && n < |args| && !HasDashPrefix(args[n]))
  }

  lemma {:induction false} ValuesInPrefix(args: seq<string>, table: map<string, Role>, path: string, n: nat)
    requires 1 <= n <= |args|
    ensures |Expanded(args, table, path, n)| == |Inserted(args, table, n)|
    ensures ValuesSoFar(args, table, path, Expanded(args, table, path, n), Inserted(args, table, n), n)
  {
    ExpandedShape(args, table, path, n);
    if n > 1 {
      ValuesInPrefix(args, table, path, n - 1);
      ExpandedShape(args, table, path, n - 1);
      var a, ma := Expanded(args, table, path, n - 1), Inserted(args, table, n - 1);
      var out, marks := Expanded(args, table, path, n), Inserted(args, table, n);
      forall p | 1 <= p < |marks| && !marks[p] && Resolve(table, out[p]) == Some(EnvFile)
        ensures (p + 1 < |marks| && (if marks[p + 1] then out[p + 1] == path else !HasDashPrefix(out[p + 1])))
                || (p + 1 == |marks| && n < |args| && !HasDashPrefix(args[n]))
      {
        if p < |a| - 1 {
          assert out[p] == a[p] && marks[p] == ma[p];
          assert out[p + 1] == a[p + 1] && marks[p + 1] == ma[p + 1];
        } else if p == |a| - 1 {
          assert out[p] == a[p] && marks[p] == ma[p];
          assert out[p + 1] == args[n - 1] && !marks[p + 1];
        } else {
          assert p == |a|;
          assert out[p] == args[n - 1];
        }
      }
    }
  }

  /** After rewriting, every env-file flag that was copied from the input is followed by a
      value: the inserted default path, or a copied token that does not start with a dash. */
  lemma EnvFlagNeverSwallowsFlag(args: seq<string>, table: map<string, Role>, path: string)
    requires Rewritten(args, table, path).Ok?
    ensures var out, marks := Rewritten(args, table, path).value, Inserted(args, table, |args|);
      |out| == |marks|
      && forall p :: 1 <= p < |marks| && !marks[p] && Resolve(table, out[p]) == Some(EnvFile) ==>
           p + 1 < |marks| && (if marks[p + 1] then out[p + 1] == path else !HasDashPrefix(out[p + 1]))
  {
    ExpandedShape(args, table, path, |args|);
    if |args| >= 1 {
      ValuesInPrefix(args, table, path, |args|);
    }
  }

  /** A successful rewrite keeps the program name first, copies every input token once and
      in order (deleting the inserted tokens gives back the input), and grows by exactly the
      number of env-file flags that take the default. */
  lemma RewriteKeepsInput(args: seq<string>, table: map<string, Role>, path: string)
    requires Rewritten(args, table, path).Ok?
    ensures var out, marks := Rewritten(args, table, path).value, Inserted(args, table, |args|);
      |out| == |marks| == |args| + Inserts(args, table, |args|)
      && (|args| >= 1 ==> out[0] == args[0])
      && Kept(out, marks) == args
  {
    ExpandedShape(args, table, path, |args|);
    ErasureRecoversInput(args, table, path, |args|);
    assert args[..|args|] == args;
  }

  /** When no env-file flag takes the default, nothing is inserted. */
  lemma {:induction false} NoDefaultsNoChange(args: seq<string>, table: map<string, Role>, path: string, n: nat)
    requires n <= |args|
    requires forall j :: 1 <= j < n ==> !TakesDefault(args, table, j)
    ensures Expanded(args, table, path, n) == args[..n]
  {
    if n == 1 {
      assert args[..1] == [args[0]];
    } else if n > 1 {
      NoDefaultsNoChange(args, table, path, n - 1);
      assert args[..n] == args[..n - 1] + [args[n - 1]];
    }
  }

  /** Counting overload-role tokens: at least one, at least two, as positions. */
  lemma {:induction false} OverloadsCount(args: seq<string>, table: map<string, Role>, n: nat)
    requires n <= |args|
    ensures Overloads(args, table, n) >= 1 <==> exists j :: 1 <= j < n && IsOverloadAt(args, table, j)
    ensures Overloads(args, table, n) >= 2 <==>
      exists j1, j2 :: 1 <= j1 < j2 < n && IsOverloadAt(args, table, j1) && IsOverloadAt(args, table, j2)
  {
    if n > 1 {
      OverloadsCount(args, table, n - 1);
      var last := n - 1;
      if Overloads(args, table, n) >= 2 {
        if IsOverloadAt(args, table, last) {
          var j1 :| 1 <= j1 < n - 1 && IsOverloadAt(args, table, j1);
          assert 1 <= j1 < last < n && IsOverloadAt(args, table, j1) && IsOverloadAt(args, table, last);
        } else {
          var j1, j2 :| 1 <= j1 < j2 < n - 1 && IsOverloadAt(args, table, j1) && IsOverloadAt(args, table, j2);
          assert 1 <= j1 < j2 < n;
        }
      }
      if exists j1, j2 :: 1 <= j1 < j2 < n && IsOverloadAt(args, table, j1) && IsOverloadAt(args, table, j2) {
        var j1, j2 :| 1 <= j1 < j2 < n && IsOverloadAt(args, table, j1) && IsOverloadAt(args, table, j2);
        if j2 < n - 1 {
          assert 1 <= j1 < j2 < n - 1;
        } else {
          assert 1 <= j1 < n - 1;
        }
      }
      if Overloads(args, table, n) >= 1 && !IsOverloadAt(args, table, last) {
        var j :| 1 <= j < n - 1 && IsOverloadAt(args, table, j);
        assert 1 <= j < n;
      }
      if exists j :: 1 <= j < n && IsOverloadAt(args, table, j) {
        var j :| 1 <= j < n && IsOverloadAt(args, table, j);
        if j < n - 1 {
          assert 1 <= j < n - 1;
        }
      }
    }
  }

  /** The rewrite fails exactly when two tokens (any aliases, any dash form) have the
      overload role; env-file flags may repeat freely. */
  lemma FailsIffRepeatedOverload(args: seq<string>, table: map<string, Role>, path: string)
    ensures Rewritten(args, table, path).Err? <==>
      exists j1, j2 :: 1 <= j1 < j2 < |args| && IsOverloadAt(args, table, j1) && IsOverloadAt(args, table, j2)
    ensures Rewritten(args, table, path).Err? ==> Rewritten(args, table, path).error == DuplicateOverloadFlag
  {
    OverloadsCount(args, table, |args|);
  }

  /** A registered alias resolves under a single dash, and under a dash followed by any one
      byte when that longer name is not itself registered; so "--envs" and "-xenvs" both
      resolve like "-envs". */
  lemma ResolveAlias(table: map<string, Role>, name: string, lead: char)
    requires name in table
    ensures name != "" ==> Resolve(table, "-" + name) == Some(table[name])
    ensures [lead] + name !in table ==> Resolve(table, ['-', lead] + name) == Some(table[name])
  {
    assert ("-" + name)[1..] == name;
    assert (['-', lead] + name)[1..] == [lead] + name;
    assert (['-', lead] + name)[2..] == name;
  }

  /** Tokens that cannot be flags are never resolved, so they are neither followed by a
      default path nor counted as overload flags. */
  lemma InertTokens(args: seq<string>, table: map<string, Role>, j: nat)
    requires 1 <= j < |args|
    requires !HasDashPrefix(args[j]) || args[j] == "-"
      || (|args[j]| >= 2 && args[j][1..] !in table && args[j][2..] !in table)
    ensures !TakesDefault(args, table, j) && !IsOverloadAt(args, table, j)
  {
  }

  /* ---------------------------------------------------------------------------
     Scenarios with the default configuration
     --------------------------------------------------------------------------- */

  ghost function DefaultTable(): map<string, Role>
  {
    FlagTable(["envs", "e"], ["env-overload", "eo", "o"])
  }

  lemma DefaultTableRoles()
    ensures DefaultTable() == map["envs" := EnvFile, "e" := EnvFile,
                                  "env-overload" := Overload, "eo" := Overload, "o" := Overload]
  {
  }

  /** Resolution with the default aliases: both dash forms and any second byte resolve;
      a token carrying its value after '=' and a bare dash do not. */
  lemma ResolutionExamples()
    ensures Resolve(DefaultTable(), "-envs") == Some(EnvFile)
    ensures Resolve(DefaultTable(), "--eo") == Some(Overload)
    ensures Resolve(DefaultTable(), "-xenvs") == Some(EnvFile)
    ensures Resolve(DefaultTable(), "-envs=path") == None
    ensures Resolve(DefaultTable(), "-") == None
    ensures Resolve(DefaultTable(), "envs") == None
  {
  }

  /** `prog -envs file1.env -envs`: the second flag, being last, receives ".env". */
  lemma TrailingEnvFlagScenario()
    ensures Rewritten(["prog", "-envs", "file1.env", "-envs"], DefaultTable(), ".env")
         == Ok(["prog", "-envs", "file1.env", "-envs", ".env"])
  {
    var args := ["prog", "-envs", "file1.env", "-envs"];
    DefaultTableRoles();
    assert "-envs"[1..] == "envs";
    assert Resolve(DefaultTable(), args[1]) == Some(EnvFile);
    assert Resolve(DefaultTable(), args[2]) == None;
    assert !TakesDefault(args, DefaultTable(), 1);
    assert TakesDefault(args, DefaultTable(), 3);
    assert !IsOverloadAt(args, DefaultTable(), 1) && !IsOverloadAt(args, DefaultTable(), 3);
    assert Overloads(args, DefaultTable(), 2) == 0;
    assert Overloads(args, DefaultTable(), 3) == 0;
    assert Overloads(args, DefaultTable(), 4) == 0;
    assert Expanded(args, DefaultTable(), ".env", 2) == ["prog", "-envs"];
    assert Expanded(args, DefaultTable(), ".env", 3) == ["prog", "-envs", "file1.env"];
    assert Chunk(args, DefaultTable(), ".env", 3) == ["-envs", ".env"];
    assert Expanded(args, DefaultTable(), ".env", 4) == ["prog", "-envs", "file1.env", "-envs", ".env"];
  }

  /** `prog -env-overload -env-overload` fails. */
  lemma DuplicateOverloadScenario()
    ensures Rewritten(["prog", "-env-overload", "-env-overload"], DefaultTable(), ".env")
         == Err(DuplicateOverloadFlag)
  {
    var args := ["prog", "-env-overload", "-env-overload"];
    DefaultTableRoles();
    assert "-env-overload"[1..] == "env-overload";
    assert IsOverloadAt(args, DefaultTable(), 1) && IsOverloadAt(args, DefaultTable(), 2);
    assert Overloads(args, DefaultTable(), 2) == 1;
  }
}
