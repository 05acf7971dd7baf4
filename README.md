# make:repository, modelled in Dafny

This project models the `make:repository` console command of the
laravel-repositories package (`src/Commands/MakeRepositoryCommand.php`). The
command scaffolds a repository class:

- `setRepositoryClass` upper-cases the first letter of the `class` argument.
  It keeps the `--model` option as the model namespace and takes its last
  backslash-separated segment as the bare model name. When the option is
  omitted it holds the sentinel `App\Your\Model`.
- `handle` resolves the file path of the class. If something is already there,
  it reports `Repository already exists!` and returns `false`. Otherwise it
  makes the directory, renders the class and writes it. It then prints two
  lines and returns `null`.
- `replaceClass` throws when the `class` argument is falsy. Otherwise it
  applies the generator's own class-name replacement and then four
  `str_replace` calls, in this order:
  1. `[model_namespace]`;
  2. the two comment placeholders, whose texts depend on whether the option
     is the sentinel;
  3. `[model]`, last.
- `getDefaultNamespace` puts repositories in the `Repositories` namespace,
  directly under the application's root namespace.

The project has three modules:

- `PhpStrings` (`php_strings.dfy`) holds the PHP primitives the command
  uses: `str_replace` with a single search string, `explode`, `implode` and
  `ucfirst`. Each is written out with PHP's semantics. `str_replace` scans
  left to right, finds non-overlapping matches and does not rescan what it
  inserts. `explode` always returns at least one piece. `ucfirst` is
  ASCII-only.
- `Templates` (`templates.dfy`) views a template as a sequence of tokens:
  plain text (no `[`) and bracketed placeholders. The reference meaning of
  filling placeholders is simultaneous instantiation. Each `str_replace` of
  a placeholder is proved to be one such instantiation.
- `MakeRepository` (`make_repository_command.dfy`) holds the command's
  constants, naming, `replaceClass`, and a `Filesystem` class. It also holds
  the `MakeRepositoryCommand` class, whose fields `setRepositoryClass` and
  `handle` update in place.

Parts of the framework's generator command are inherited and not shown:
- `getPath(qualifyClass(..))`;
- the directory part of a path;
- reading the stub and replacing its namespace;
- `parent::replaceClass`.

The command object receives each of them as a function-typed field.
The file system is a map from paths to contents plus a set of directories.
`alreadyExists` holds when anything is at the resolved path, a file or a
directory, as with PHP's `file_exists`.

The guard on the class argument is `!$this->argument('class')`. PHP treats
both `""` and `"0"` as false, so the class name `0` is refused along with the
empty one (`IsFalsy`).

Two lemmas prove the rendered class free of placeholders. Both assume that
the option and the model name contain no `[`. Both also assume the stub is
well-formed: every `[` in it opens a bracketed name with no bracket inside
before its `]`. Array syntax such as `[]`, `['*']` or `$x[0]` is well-formed
in this sense; nested brackets such as `[[1]]` are not.

- `NoKnownPlaceholderRemains`: none of the four placeholders is left.
- `NoPlaceholderRemains`: for a stub whose only bracketed names are the four
  placeholders, no `[` at all is left.

`ModelTextFromOptionIsReplaced` shows why the ordering matters. Because
`[model]` is replaced after `[model_namespace]`, a `[model]` carried in by
the option is itself replaced.

## Model

| member | source | states |
|---|---|---|
| PhpStrings.ToUpper | src/Commands/MakeRepositoryCommand.php:85 | only `a`..`z` change, each moving down by 32 to its capital; the result is never a lower-case letter |
| PhpStrings.UcFirst | src/Commands/MakeRepositoryCommand.php:85 | `ucfirst` keeps the length and every character after the first; the first becomes its upper-case form and is not lower-case |
| PhpStrings.UcFirstIdempotent | src/Commands/MakeRepositoryCommand.php:85 | applying `ucfirst` twice gives the same class name as once |
| PhpStrings.Explode | src/Commands/MakeRepositoryCommand.php:89-90 | `explode` returns at least one piece, so taking the element at `count - 1` is always defined |
| PhpStrings.ImplodeExplode | src/Commands/MakeRepositoryCommand.php:89 | gluing the pieces of `explode` back together with the separator gives the original string |
| PhpStrings.ExplodeFirstPiece | src/Commands/MakeRepositoryCommand.php:89 | the separator does not occur in the first piece of an `explode` |
| PhpStrings.ExplodePiecesFree | src/Commands/MakeRepositoryCommand.php:89 | the separator does not occur in any piece of an `explode` |
| PhpStrings.ExplodeSinglePiece | src/Commands/MakeRepositoryCommand.php:89-90 | a string explodes into exactly one piece if and only if the separator does not occur in it |
| PhpStrings.StrReplace | src/Commands/MakeRepositoryCommand.php:109-119 | PHP's `str_replace` with one search string, scanning left to right without rescanning what it inserts; characterised by `StrReplaceIsImplodeExplode` and, on templates, by `Templates.StrReplaceInstantiates` |
| PhpStrings.StrReplaceIsImplodeExplode | src/Commands/MakeRepositoryCommand.php:109-119 | `str_replace` equals splitting at the occurrences of the search string and gluing the pieces with the replacement |
| PhpStrings.StrReplaceWithoutOccurrence | src/Commands/MakeRepositoryCommand.php:109-119 | a `str_replace` whose search string does not occur leaves the subject unchanged |
| Templates.StrReplaceInstantiates | src/Commands/MakeRepositoryCommand.php:109-119 | on a template of plain text and placeholders, replacing one placeholder equals instantiating exactly its slots with the value, whatever the value |
| Templates.StrReplaceAfterInstantiate | src/Commands/MakeRepositoryCommand.php:109-119 | one more placeholder replacement on an instantiated template equals one instantiation with both value maps, earlier values kept |
| MakeRepository.LastPieceIsLastSegment | src/Commands/MakeRepositoryCommand.php:89-90 | the last piece of `explode('\\', s)` has no backslash, ends `s`, and is either all of `s` or preceded by a backslash |
| MakeRepository.BareModelName | src/Commands/MakeRepositoryCommand.php:89-90 | the bare model name is the last backslash-separated segment of the option |
| MakeRepository.BareModelNameCharacterized | src/Commands/MakeRepositoryCommand.php:89-90 | the bare model name equals `r` if and only if `r` is the option's last segment |
| MakeRepository.BareModelNameWithoutBackslash | src/Commands/MakeRepositoryCommand.php:89-90 | an option without a backslash is its own model name |
| MakeRepository.BareModelNameAfterBackslash | src/Commands/MakeRepositoryCommand.php:89-90 | whatever precedes the last backslash, the model name is the text after it |
| MakeRepository.DefaultModelName | src/Commands/MakeRepositoryCommand.php:14 | with the sentinel option `App\Your\Model` the bare model name is `Model` |
| MakeRepository.GetDefaultNamespace | src/Commands/MakeRepositoryCommand.php:139-142 | the repositories' namespace has exactly the segments of the root namespace followed by one more, `Repositories` |
| MakeRepository.IsFalsy | src/Commands/MakeRepositoryCommand.php:104 | PHP's `!` on a string: true of exactly `""` and `"0"` |
| MakeRepository.ReplaceClass | src/Commands/MakeRepositoryCommand.php:102-120 | rendering fails exactly when the class argument is falsy (`""` or `"0"`), and the failure is the missing-argument error |
| MakeRepository.CommentTexts | src/Commands/MakeRepositoryCommand.php:111-117 | the two reminders are used if and only if the option is the sentinel; otherwise an empty namespace comment and the set-up comment are used |
| MakeRepository.PlaceholdersWellFormed | src/Commands/MakeRepositoryCommand.php:109-119 | the four searched strings are bracketed names without inner brackets |
| MakeRepository.CommentTextsPlain | src/Commands/MakeRepositoryCommand.php:111-117 | the comment texts and the sentinel contain no `[`, so they cannot start a placeholder |
| MakeRepository.ReplaceChainInstantiates | src/Commands/MakeRepositoryCommand.php:109-119 | the four sequential replacements on a rendered template equal one simultaneous instantiation, whatever the model name |
| MakeRepository.ReplaceClassInstantiates | src/Commands/MakeRepositoryCommand.php:102-120 | on a well-formed template and a namespace without `[`, `replaceClass` succeeds with the template instantiated by the four placeholder values |
| MakeRepository.NoKnownPlaceholderRemains | src/Commands/MakeRepositoryCommand.php:102-120 | for any well-formed stub (plain text and bracketed names, array syntax included), with an option and model name without `[`, rendering succeeds and none of the four placeholders occurs in the result |
| MakeRepository.NoPlaceholderRemains | src/Commands/MakeRepositoryCommand.php:102-120 | if the stub's only placeholders are the four known ones, and the option and model name contain no `[`, then rendering succeeds with no `[` left |
| MakeRepository.ReplaceClassWithoutPlaceholders | src/Commands/MakeRepositoryCommand.php:108-119 | a stub without any of the four placeholders comes out exactly as the parent's replacement left it |
| MakeRepository.ModelTextFromOptionIsReplaced | src/Commands/MakeRepositoryCommand.php:109-119 | since `[model]` is replaced last, a `[model]` brought in by the option becomes the model name, so `front[model]` renders as `front` + model |
| MakeRepository.Filesystem.MakeDirectory | src/Commands/MakeRepositoryCommand.php:69 | the directory exists afterwards and no file changes |
| MakeRepository.Filesystem.Put | src/Commands/MakeRepositoryCommand.php:71 | the file at the path now holds the contents; every other file and directory is unchanged |
| MakeRepository.MakeRepositoryCommand.SetRepositoryClass | src/Commands/MakeRepositoryCommand.php:83-93 | class name = `ucfirst` of the argument, namespace = the option, model = the option's last segment |
| MakeRepository.MakeRepositoryCommand.Handle | src/Commands/MakeRepositoryCommand.php:57-78 | returns `false` if and only if a file or directory is at the path, and then changes no file or directory and adds the "already exists" line; raises the missing-argument error if and only if nothing is at the path and the argument is falsy, and then has made the directory but written nothing; otherwise adds exactly one new file holding the rendered class, makes the directory and adds the two success lines (`CreatedLines`: the "created successfully" line and the "Created Repository :" line with the class name, as at :73-75) |
| MakeRepository.HandleTwice | src/Commands/MakeRepositoryCommand.php:57-78 | with a class argument present, a second run always returns `false`; the files equal what one run leaves, so nothing is ever overwritten |

## Left out

- `src/Repository.php` (dynamic forwarding to the model through `__call`,
  and `getTable`) and the package's service provider are not part of this
  model. They only dispatch to framework objects that are not visible here.
- The framework's generator command is kept abstract. Resolving a class to a
  path, the directory of a path, reading `Repository.stub`, replacing the
  stub's namespace and the parent's class replacement are all inputs. So is
  the question of which files exist. The stub's contents are not part of
  this model.
- Parsing the command signature is left out. `getArguments` and the
  `--model` default are represented by a `ConsoleInput` whose option holds
  the sentinel when it was not given.
- Console output is recorded as a list of lines. Colours, the output stream
  and the exception's message text are left out.
- `Filesystem.MakeDirectory` records one directory. It does not model
  creating parent directories, permissions, or I/O errors.
- Strings are sequences of characters, while PHP works on bytes. The class
  argument, the option and the stub may hold any UTF-8 text. Everything the
  command searches for or changes is ASCII: the backslash separator, the four
  placeholders, and the letters `a`..`z` that `ucfirst` changes. An ASCII
  byte never occurs inside a multi-byte UTF-8 sequence, so the byte-wise
  functions agree with the character-wise model on UTF-8 input. Input that
  is not valid UTF-8 is not modelled.
- NoPlaceholderRemains: the absence of placeholders is proved only for
  well-formed stubs, and only for an option and model name without `[`.
  `NoKnownPlaceholderRemains` has the same limits. A stub with nested
  brackets, or with a `[` that no `]` closes, is not covered. If the option
  contains `[`, a placeholder can remain; `ModelTextFromOptionIsReplaced`
  shows the related case of a `[model]` carried in by the option. So this is
  weaker than a claim that none ever remains.
