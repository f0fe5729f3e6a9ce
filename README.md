# go-udotenv: configuration and command-line rewrite

This project models the Go package `udotenv` in Dafny (module `Udotenv`, file `udotenv.dfy`).
The package lets a program name dotenv files on its command line (`-envs path`, `-e path`) and ask for
overwriting of variables already set (`-env-overload`, `-eo`, `-o`). Its `New` function does three things:

- It picks the configuration. With none, it uses `GetDefaultConfig`. With one, it uses that object and writes
  `.env` into its `DefaultEnvPath` when that field is empty. With more, it fails.
- It registers every alias with Go's flag package and stores it in the alias-to-role table `flagStorage`.
  The flag package refuses a name registered twice, so a repeated alias (within one list or across both) makes
  `New` fail. Registering an overload flag also stores `OverloadByDefault` in the object's overload setting.
- It rewrites `os.Args` before the flag parser runs. Every token is copied. A token starting with `-`
  (and longer than one byte) is looked up with one leading byte removed, then with two removed. A second
  overload-role token fails the whole call. After an env-file-role token, the default path is inserted when
  that token is the last one or the next raw token starts with `-`. This way an env-file flag never takes the
  next flag as its value.

The model keeps the source's form:

- `Config`, `udotEnvType` (here `Udotenv`) and `stringSlice` (here `StringSlice`) are classes.
- `New` writes the default path into the caller's `Config` in place, and the returned object refers to that same
  `Config`.
- The rewrite loop is the method `RewriteArgs`, proved against the specification function `Rewritten`.
  - `Expanded` builds the output for a prefix of the input.
  - `Inserted` marks which output positions hold inserted default paths.
  - `Overloads` counts overload-role tokens.
- Panics become `Error` values. `os.Args` is a parameter of `New`, and the rewritten list is part of its result.

A Go string is a sequence of bytes. Here a token is a `string` in which each character stands for one byte.
The code only compares the first byte with `-` and slices at byte offsets 1 and 2, so this representation is exact.

## Model

| member | source | states |
|---|---|---|
| `Udotenv.GetDefaultConfig` | udotenv.go:100-106 | a fresh config with env aliases `["envs","e"]`, overload aliases `["env-overload","eo","o"]`, path `.env` and overload-by-default off |
| `Udotenv.New` | udotenv.go:130-194 | no config: the default config is used; one config: its aliases are kept, its empty `DefaultEnvPath` becomes `.env` in place, and the result refers to that same object; two or more: fails with `MultipleConfigs` and changes nothing; a repeated alias fails with `FlagRedefined` naming a repeated alias; otherwise the result is exactly the rewrite of the arguments under the chosen aliases and path (success or `DuplicateOverloadFlag`), with a fresh object whose collected values are empty and whose overload setting equals `OverloadByDefault` when at least one overload alias is registered, and is off otherwise |
| `Udotenv.Udotenv.constructor` | udotenv.go:131-136 | the new object refers to the given config, starts with no collected env files and the overload flag off |
| `Udotenv.RegisterFlags` | udotenv.go:145-154 | registration succeeds exactly when no alias occurs twice across both lists, and then the table holds exactly those aliases, overload aliases with the overload role and env-file aliases with the env-file role; otherwise it fails with `FlagRedefined` naming an alias that occurs twice |
| `Udotenv.Resolve` | udotenv.go:166-173 | a token resolves only if it starts with a dash, is at least two bytes long, and its role is one the table holds |
| `Udotenv.RewriteArgs` | udotenv.go:156-188 | with at most one argument the list is returned unchanged; in every case the result equals the specification `Rewritten`: failure exactly when two overload-role tokens occur, otherwise the expanded list |
| `Udotenv.RewriteKeepsInput` | udotenv.go:160-165 | on success the output starts with the program name, deleting the inserted tokens gives back the input exactly and in order, and the output is longer by the number of env-file flags that took the default |
| `Udotenv.ErasureRecoversInput` | udotenv.go:160-165 | for every prefix of the input, deleting the inserted tokens from its output gives back that prefix |
| `Udotenv.ExpandedShape` | udotenv.go:160-165 | output length equals input length plus insertions; the program name is first and is not an inserted token |
| `Udotenv.TokenPlacement` | udotenv.go:164-186 | raw token j sits unchanged at its shifted position; the default path follows it if and only if it is an env-file flag that is last or followed by a dash token; otherwise the next raw token follows it directly |
| `Udotenv.TokenLands` | udotenv.go:164-186 | raw token j keeps its position in every longer output, with the default path after it when it takes one |
| `Udotenv.InsertionsFollowEnvFlags` | udotenv.go:182-186 | every inserted token is the default path, at position two or later, right after a copied token that resolves to the env-file role |
| `Udotenv.ValuesInPrefix` | udotenv.go:182-186 | in the output for a prefix, each copied env-file flag already has its value, or is last and the next raw token does not start with a dash |
| `Udotenv.EnvFlagNeverSwallowsFlag` | udotenv.go:182-186 | after a successful rewrite every copied env-file flag (after the program name) is followed by the inserted default path or by a copied token that does not start with a dash |
| `Udotenv.NoDefaultsNoChange` | udotenv.go:182-186 | when no env-file flag takes the default, the output equals the input |
| `Udotenv.OverloadsGrow` | udotenv.go:174-180 | the number of overload-role tokens seen never decreases as the scan advances |
| `Udotenv.OverloadsCount` | udotenv.go:174-180 | the count of overload-role tokens is at least one (two) exactly when one (two distinct) such positions exist |
| `Udotenv.FailsIffRepeatedOverload` | udotenv.go:174-180 | the rewrite fails, with `DuplicateOverloadFlag`, if and only if two positions resolve to the overload role; env-file flags may repeat without failing |
| `Udotenv.ResolveAlias` | udotenv.go:170-173 | a registered alias resolves as `-alias`, and as `-` plus any byte plus the alias (so `--alias` and `-xalias`) unless that longer name is itself registered |
| `Udotenv.InertTokens` | udotenv.go:166-173 | a token without a leading dash, a bare `-`, or one whose one- and two-byte-stripped forms are both unregistered neither takes a default path nor counts as an overload flag |
| `Udotenv.DefaultTableRoles` | udotenv.go:100-106 | the default table is `envs`, `e` to the env-file role and `env-overload`, `eo`, `o` to the overload role |
| `Udotenv.ResolutionExamples` | udotenv.go:166-173 | with the default aliases, `-envs`, `--eo` and `-xenvs` resolve, while `-envs=path`, `-` and `envs` do not |
| `Udotenv.TrailingEnvFlagScenario` | udotenv.go:156-188 | `prog -envs file1.env -envs` becomes `prog -envs file1.env -envs .env` |
| `Udotenv.DuplicateOverloadScenario` | udotenv.go:174-177 | `prog -env-overload -env-overload` fails with `DuplicateOverloadFlag` |
| `Udotenv.StringSlice.Set` | udotenv.go:24-27 | appends the value at the end, keeps the earlier values, never reports an error, and the `String` text grows by `", "` and the value |
| `Udotenv.Join` | udotenv.go:20-22 | the joined text is as long as all elements together plus one separator between each pair of neighbours, and starts with the first element |
| `Udotenv.StringSlice.String` | udotenv.go:20-22 | the text is as long as all collected values plus two bytes of `", "` between each pair of neighbours, and starts with the first value |
| `Udotenv.JoinAppend` | udotenv.go:20-22 | joining a list with one more element adds the separator and that element to the joined text (or is that element alone when the list was empty) |
| `Udotenv.Udotenv.Load` | udotenv.go:80-94 | with no collected files nothing happens; otherwise every collected path, in order, goes to the loader, in overwrite mode exactly when the overload flag is set; a loader failure becomes `EnvFileLoadError` with those paths |

## Left out

- Flag parsing (`flag.Parse` and the `parseFlags` parameter of `New`) belongs to Go's standard flag package. The model does not describe how the parser later fills `EnvParam` and `OverloadParam`. Of flag registration it keeps two effects: a repeated name fails, and `flag.BoolVar` stores the default `OverloadByDefault` in `OverloadParam`.
- Udotenv.New: Go's flag set is global, so a second call of `New` in one process would fail on names registered by the first call. The model starts each call with an empty registry.
- Udotenv.New: recent Go versions of the flag package also refuse a flag name that begins with `-` or contains `=`. Which Go version builds the package is not known, so the model accepts such names.
- Reading and reassigning the global `os.Args` is replaced by a parameter and a result of `New`.
- File loading in `Load` is done by the external `godotenv` library, which also changes the process environment. The model records which mode is chosen and which paths are passed. The library's own success or failure is the `loaderFails` parameter.
- Panic messages, `fmt` formatting and the help texts of the flags are not modelled. Each panic is an `Error` constructor.
- A nil `*Config` passed to `New` would crash the Go code. Dafny references here are non-null, so that case does not arise.
- Map capacity hints and slice capacities have no observable effect and are not modelled.
