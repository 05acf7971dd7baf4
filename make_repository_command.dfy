/**
  The `make:repository` console command: it names the repository class and
  its model, renders the repository template by a fixed chain of placeholder
  replacements, and writes the result to a new file, never over an existing
  one.

  The pieces the command inherits from the framework's generator command
  (resolving a class name to a file path, the directory part of a path,
  reading the template and replacing its namespace, the parent's own class
  name replacement) are not part of this model: the command object receives
  each of them as a function.
 */
module MakeRepository {
  import opened PhpStrings
  import opened Templates

  /** The default of the `--model` option: it means that no model was named. */
  const ModelDefault: string := "App\\Your\\Model"

  /** The kind of class the command generates, used in its messages. */
  const TypeName: string := "Repository"

  // The longer texts below are written as concatenations of short pieces, so
  // that facts about their characters are proved piece by piece.

  const ModelNamespacePlaceholder: string := "[" + "model_namespace" + "]"
  const CommentNamespacePlaceholder: string := "[" + "comment_namespace" + "_when_no_model" + "]"
  const CommentModelPlaceholder: string := "[" + "comment_when" + "_no_model" + "]"
  const ModelPlaceholder: string := "[model]"

  const NamespaceReminder: string := "// Don't forget " + "to update the " + "model's namespace"
  const NameReminder: string := "// Don't forget " + "to update the " + "model's name"
  const SetupComment: string := "// setup " + "the model"

  /** The invalid-argument exception thrown when the class name is missing. */
  datatype CommandError = MissingClassArgument

  datatype Result<T> = Success(value: T) | Failure(error: CommandError)

  /** What `handle` ends with: `return false`, `return null`, or an exception. */
  datatype HandleResult = ReturnedFalse | ReturnedNull | Raised(error: CommandError)

  /**
    The parsed console input: the `class` argument and the `--model` option,
    which holds `ModelDefault` when it was not given.
   */
  datatype ConsoleInput = ConsoleInput(classArg: string, modelOption: string)

  /** PHP's `!$s` for a string: true of the empty string and of "0". */
  predicate IsFalsy(s: string)
  {
    s == "" || s == "0"
  }

  // ---------------------------------------------------------------------
  // Naming
  // ---------------------------------------------------------------------

  /**
    `r` is the last backslash-separated segment of `s`: it holds no
    backslash, `s` ends with it, and it is either all of `s` or preceded by
    a backslash.
   */
  predicate IsLastSegment(s: string, r: string)
  {
    && '\\' !in r
    && |r| <= |s|
    && s[|s| - |r|..] == r
    && (|r| == |s| || s[|s| - |r| - 1] == '\\')
  }

  /** The last piece of an explode on a backslash is the last segment. */
  lemma LastPieceIsLastSegment(s: string)
    ensures IsLastSegment(s, Explode("\\", s)[|Explode("\\", s)| - 1])
  {
    var pieces := Explode("\\", s);
    var last := pieces[|pieces| - 1];
    assert "\\" == ['\\'];
    ImplodeExplode("\\", s);
    ExplodePiecesFree("\\", s);
    OccursSingleChar('\\', last);
    if |pieces| >= 2 {
      ImplodeLast("\\", pieces);
      var front := Implode("\\", pieces[..|pieces| - 1]) + "\\";
      assert s == front + last;
      assert s[|s| - |last|..] == last;
      assert s[|s| - |last| - 1] == front[|front| - 1];
    }
  }

  /** The last piece of an explode on a backslash: the bare model name. */
  function BareModelName(modelNamespace: string): (model: string)
    ensures IsLastSegment(modelNamespace, model)
  {
    var pieces := Explode("\\", modelNamespace);
    LastPieceIsLastSegment(modelNamespace);
    pieces[|pieces| - 1]
  }

  /** A string has only one last segment. */
  lemma LastSegmentUnique(s: string, r1: string, r2: string)
    requires IsLastSegment(s, r1) && IsLastSegment(s, r2)
    ensures r1 == r2
  {
  }

  /** The bare model name is exactly the last segment of the option. */
  lemma BareModelNameCharacterized(modelNamespace: string, model: string)
    ensures BareModelName(modelNamespace) == model <==> IsLastSegment(modelNamespace, model)
  {
    if IsLastSegment(modelNamespace, model) {
      LastSegmentUnique(modelNamespace, BareModelName(modelNamespace), model);
    }
  }

  /** An option without a backslash is its own bare model name. */
  lemma BareModelNameWithoutBackslash(modelNamespace: string)
    requires '\\' !in modelNamespace
    ensures BareModelName(modelNamespace) == modelNamespace
  {
    BareModelNameCharacterized(modelNamespace, modelNamespace);
  }

  /** With the default option the bare model name is `Model`. */
  lemma DefaultModelName()
    ensures BareModelName(ModelDefault) == "Model"
  {
    assert ModelDefault == "App\\Your" + "\\" + "Model";
    BareModelNameAfterBackslash("App\\Your", "Model");
  }

  /** Whatever precedes the last backslash, the bare model name is what follows it. */
  lemma BareModelNameAfterBackslash(front: string, last: string)
    requires '\\' !in last
    ensures BareModelName(front + "\\" + last) == last
  {
    var option := front + "\\" + last;
    assert option[|option| - |last|..] == last;
    assert option[|option| - |last| - 1] == '\\';
    BareModelNameCharacterized(option, last);
  }

  /**
    `getDefaultNamespace`: repositories live in the `Repositories` namespace
    under the application's root namespace, one segment below it.
   */
  function GetDefaultNamespace(rootNamespace: string): (ns: string)
    ensures Explode("\\", ns) == Explode("\\", rootNamespace) + ["Repositories"]
  {
    assert rootNamespace + "\\Repositories" == rootNamespace + ['\\'] + "Repositories";
    ExplodeJoined('\\', rootNamespace, "Repositories");
    OccursSingleChar('\\', "Repositories");
    assert "\\" == ['\\'];
    ExplodeWithoutSeparator("\\", "Repositories");
    rootNamespace + "\\Repositories"
  }

  // ---------------------------------------------------------------------
  // Rendering
  // ---------------------------------------------------------------------

  /**
    `replaceClass($stub, $name)`: refuses a missing class argument before
    touching the stub; otherwise applies the parent's class replacement and
    then the four placeholder replacements, `[model]` last.
   */
  function ReplaceClass(parentReplaceClass: (string, string) -> string, input: ConsoleInput,
                        modelNamespace: string, model: string, stub: string, name: string): (r: Result<string>)
    ensures r.Failure? <==> IsFalsy(input.classArg)
    ensures r.Failure? ==> r.error == MissingClassArgument
  {
    if IsFalsy(input.classArg) then Failure(MissingClassArgument)
    else
      var s0 := parentReplaceClass(stub, name);
      var s1 := StrReplace(ModelNamespacePlaceholder, modelNamespace, s0);
      var s3 :=
        if input.modelOption == ModelDefault then
          var s2 := StrReplace(CommentNamespacePlaceholder, NamespaceReminder, s1);
          StrReplace(CommentModelPlaceholder, NameReminder, s2)
        else
          var s2 := StrReplace(CommentNamespacePlaceholder, "", s1);
          StrReplace(CommentModelPlaceholder, SetupComment, s2);
      Success(StrReplace(ModelPlaceholder, model, s3))
  }

  /**
    The texts of the two comment placeholders: the two reminders exactly when
    the option is the default, otherwise nothing for the namespace and a
    set-up comment for the model.
   */
  function CommentTexts(modelOption: string): (texts: (string, string))
    ensures modelOption == ModelDefault <==> texts == (NamespaceReminder, NameReminder)
    ensures modelOption != ModelDefault <==> texts == ("", SetupComment)
  {
    if modelOption == ModelDefault then (NamespaceReminder, NameReminder) else ("", SetupComment)
  }

  /** The value each of the four placeholders stands for. */
  function PlaceholderValues(modelOption: string, modelNamespace: string, model: string): map<string, string>
  {
    var (namespaceComment, modelComment) := CommentTexts(modelOption);
    map[ModelNamespacePlaceholder := modelNamespace,
        CommentNamespacePlaceholder := namespaceComment,
        CommentModelPlaceholder := modelComment,
        ModelPlaceholder := model]
  }

  /** The four placeholders are bracketed names. */
  lemma PlaceholdersWellFormed()
    ensures IsPlaceholder(ModelNamespacePlaceholder)
    ensures IsPlaceholder(CommentNamespacePlaceholder)
    ensures IsPlaceholder(CommentModelPlaceholder)
    ensures IsPlaceholder(ModelPlaceholder)
  {
    ModelNamespacePlaceholderWellFormed();
    CommentNamespacePlaceholderWellFormed();
    CommentModelPlaceholderWellFormed();
    ModelPlaceholderWellFormed();
  }

  lemma ModelNamespacePlaceholderWellFormed()
    ensures IsPlaceholder(ModelNamespacePlaceholder)
  {
    Bracketed("model_namespace");
  }

  lemma CommentNamespacePlaceholderWellFormed()
    ensures IsPlaceholder(CommentNamespacePlaceholder)
  {
    var inner := "comment_namespace" + "_when_no_model";
    assert CommentNamespacePlaceholder == "[" + inner + "]";
    Bracketed(inner);
  }

  lemma CommentModelPlaceholderWellFormed()
    ensures IsPlaceholder(CommentModelPlaceholder)
  {
    var inner := "comment_when" + "_no_model";
    assert CommentModelPlaceholder == "[" + inner + "]";
    Bracketed(inner);
  }

  lemma ModelPlaceholderWellFormed()
    ensures IsPlaceholder(ModelPlaceholder)
  {
  }

  /** The comment texts, like the default option, cannot start a placeholder. */
  lemma CommentTextsPlain()
    ensures Plain(NamespaceReminder) && Plain(NameReminder) && Plain(SetupComment) && Plain("")
    ensures Plain(ModelDefault)
  {
  }

  /** One of the four placeholders the command replaces. */
  predicate KnownPlaceholder(p: string)
  {
    p == ModelNamespacePlaceholder || p == CommentNamespacePlaceholder
    || p == CommentModelPlaceholder || p == ModelPlaceholder
  }

  /** Every known placeholder has a value, and the values are plain when the names are. */
  lemma PlaceholderValuesPlain(modelOption: string, modelNamespace: string, model: string)
    requires Plain(modelNamespace) && Plain(model)
    ensures forall p :: KnownPlaceholder(p) ==> p in PlaceholderValues(modelOption, modelNamespace, model)
    ensures forall p :: p in PlaceholderValues(modelOption, modelNamespace, model) ==>
              Plain(PlaceholderValues(modelOption, modelNamespace, model)[p])
  {
    CommentTextsPlain();
  }

  /**
    On a template of plain text and placeholders, and with a model namespace
    that cannot start a placeholder, the chain of replacements is the
    simultaneous instantiation of the four placeholders. The model name may
    be anything, since it is substituted last.
   */
  lemma ReplaceClassInstantiates(parentReplaceClass: (string, string) -> string, input: ConsoleInput,
                                 modelNamespace: string, model: string, stub: string, name: string,
                                 ts: seq<Token>)
    requires !IsFalsy(input.classArg)
    requires parentReplaceClass(stub, name) == Render(ts) && WellFormed(ts)
    requires Plain(modelNamespace)
    ensures ReplaceClass(parentReplaceClass, input, modelNamespace, model, stub, name)
         == Success(Render(Instantiate(ts, PlaceholderValues(input.modelOption, modelNamespace, model))))
  {
    var texts := CommentTexts(input.modelOption);
    CommentTextsPlain();
    ReplaceClassChain(parentReplaceClass, input, modelNamespace, model, stub, name);
    ReplaceChainInstantiates(ts, modelNamespace, texts.0, texts.1, model);
    PlaceholderValuesInOrder(input.modelOption, modelNamespace, model);
  }

  /** The placeholder values, gathered one replacement at a time with the earlier ones kept. */
  lemma PlaceholderValuesInOrder(modelOption: string, modelNamespace: string, model: string)
    ensures PlaceholderValues(modelOption, modelNamespace, model)
         == map[ModelPlaceholder := model]
          + (map[CommentModelPlaceholder := CommentTexts(modelOption).1]
          + (map[CommentNamespacePlaceholder := CommentTexts(modelOption).0]
          + map[ModelNamespacePlaceholder := modelNamespace]))
  {
  }

  /** `replaceClass`, on a class argument that is present, is the chain with the option's comment texts. */
  lemma ReplaceClassChain(parentReplaceClass: (string, string) -> string, input: ConsoleInput,
                          modelNamespace: string, model: string, stub: string, name: string)
    requires !IsFalsy(input.classArg)
    ensures ReplaceClass(parentReplaceClass, input, modelNamespace, model, stub, name)
         == Success(StrReplace(ModelPlaceholder, model,
                      StrReplace(CommentModelPlaceholder, CommentTexts(input.modelOption).1,
                        StrReplace(CommentNamespacePlaceholder, CommentTexts(input.modelOption).0,
                          StrReplace(ModelNamespacePlaceholder, modelNamespace, parentReplaceClass(stub, name))))))
  {
  }

  /** The four replacements, in the command's order, on a rendered template. */
  lemma ReplaceChainInstantiates(ts: seq<Token>, modelNamespace: string, c1: string, c2: string, model: string)
    requires WellFormed(ts) && Plain(modelNamespace) && Plain(c1) && Plain(c2)
    ensures StrReplace(ModelPlaceholder, model,
              StrReplace(CommentModelPlaceholder, c2,
                StrReplace(CommentNamespacePlaceholder, c1,
                  StrReplace(ModelNamespacePlaceholder, modelNamespace, Render(ts)))))
         == Render(Instantiate(ts, map[ModelPlaceholder := model]
                                 + (map[CommentModelPlaceholder := c2]
                                 + (map[CommentNamespacePlaceholder := c1]
                                 + map[ModelNamespacePlaceholder := modelNamespace]))))
  {
    PlaceholdersWellFormed();
    var m1 := map[ModelNamespacePlaceholder := modelNamespace];
    var m2 := map[CommentNamespacePlaceholder := c1] + m1;
    var m3 := map[CommentModelPlaceholder := c2] + m2;
    StrReplaceInstantiates(ts, ModelNamespacePlaceholder, modelNamespace);
    StrReplaceAfterInstantiate(ts, m1, CommentNamespacePlaceholder, c1);
    StrReplaceAfterInstantiate(ts, m2, CommentModelPlaceholder, c2);
    StrReplaceAfterInstantiate(ts, m3, ModelPlaceholder, model);
  }

  /** A template whose slots are all known placeholders renders plain once they are filled with plain values. */
  lemma KnownSlotsRenderPlain(ts: seq<Token>, modelOption: string, modelNamespace: string, model: string)
    requires WellFormed(ts)
    requires forall i :: 0 <= i < |ts| && ts[i].Slot? ==> KnownPlaceholder(ts[i].placeholder)
    requires Plain(modelNamespace) && Plain(model)
    ensures Plain(Render(Instantiate(ts, PlaceholderValues(modelOption, modelNamespace, model))))
  {
    var values := PlaceholderValues(modelOption, modelNamespace, model);
    PlaceholderValuesPlain(modelOption, modelNamespace, model);
    forall i | 0 <= i < |ts| && ts[i].Slot?
      ensures ts[i].placeholder in values
    {
      assert KnownPlaceholder(ts[i].placeholder);
    }
    InstantiateRendersPlain(ts, values);
  }

  /**
    When the template's only placeholders are the four the command knows, and
    the option and model name cannot start a placeholder, no placeholder is
    left in the rendered class.
   */
  lemma NoPlaceholderRemains(parentReplaceClass: (string, string) -> string, input: ConsoleInput,
                             modelNamespace: string, model: string, stub: string, name: string,
                             ts: seq<Token>)
    requires !IsFalsy(input.classArg)
    requires parentReplaceClass(stub, name) == Render(ts) && WellFormed(ts)
    requires forall i :: 0 <= i < |ts| && ts[i].Slot? ==> KnownPlaceholder(ts[i].placeholder)
    requires Plain(modelNamespace) && Plain(model)
    ensures ReplaceClass(parentReplaceClass, input, modelNamespace, model, stub, name).Success?
    ensures Plain(ReplaceClass(parentReplaceClass, input, modelNamespace, model, stub, name).value)
  {
    ReplaceClassInstantiates(parentReplaceClass, input, modelNamespace, model, stub, name, ts);
    KnownSlotsRenderPlain(ts, input.modelOption, modelNamespace, model);
  }

  /**
    On any template of plain text and bracketed names (array syntax such as
    `[]` or `$x[0]` included), with a model namespace and model name that
    cannot start a placeholder, none of the four placeholders is left in the
    rendered class.
   */
  lemma NoKnownPlaceholderRemains(parentReplaceClass: (string, string) -> string, input: ConsoleInput,
                                  modelNamespace: string, model: string, stub: string, name: string,
                                  ts: seq<Token>)
    requires !IsFalsy(input.classArg)
    requires parentReplaceClass(stub, name) == Render(ts) && WellFormed(ts)
    requires Plain(modelNamespace) && Plain(model)
    ensures ReplaceClass(parentReplaceClass, input, modelNamespace, model, stub, name).Success?
    ensures forall p :: KnownPlaceholder(p) ==>
              !Occurs(p, ReplaceClass(parentReplaceClass, input, modelNamespace, model, stub, name).value)
  {
    ReplaceClassInstantiates(parentReplaceClass, input, modelNamespace, model, stub, name, ts);
    var values := PlaceholderValues(input.modelOption, modelNamespace, model);
    PlaceholderValuesPlain(input.modelOption, modelNamespace, model);
    PlaceholdersWellFormed();
    var filled := Instantiate(ts, values);
    InstantiateWellFormed(ts, values);
    forall p | KnownPlaceholder(p)
      ensures !Occurs(p, Render(filled))
    {
      forall i | 0 <= i < |filled|
        ensures filled[i] != Slot(p)
      {
        assert filled[i] == FillToken(ts[i], values);
      }
      RenderWithoutSlot(filled, p);
    }
  }

  /**
    A stub in which none of the four placeholders occurs comes out of the
    chain as the parent's replacement left it: every step is a no-op.
   */
  lemma ReplaceClassWithoutPlaceholders(parentReplaceClass: (string, string) -> string, input: ConsoleInput,
                                        modelNamespace: string, model: string, stub: string, name: string)
    requires !IsFalsy(input.classArg)
    requires !Occurs(ModelNamespacePlaceholder, parentReplaceClass(stub, name))
    requires !Occurs(CommentNamespacePlaceholder, parentReplaceClass(stub, name))
    requires !Occurs(CommentModelPlaceholder, parentReplaceClass(stub, name))
    requires !Occurs(ModelPlaceholder, parentReplaceClass(stub, name))
    ensures ReplaceClass(parentReplaceClass, input, modelNamespace, model, stub, name)
         == Success(parentReplaceClass(stub, name))
  {
    var s := parentReplaceClass(stub, name);
    var (c1, c2) := CommentTexts(input.modelOption);
    StrReplaceWithoutOccurrence(ModelNamespacePlaceholder, modelNamespace, s);
    StrReplaceWithoutOccurrence(CommentNamespacePlaceholder, c1, s);
    StrReplaceWithoutOccurrence(CommentModelPlaceholder, c2, s);
    StrReplaceWithoutOccurrence(ModelPlaceholder, model, s);
  }

  /**
    Because `[model]` is replaced after `[model_namespace]`, a `[model]` that
    the option itself brings into the stub is replaced too. With the option
    `Shop\Item[model]`, whose bare model name is `Item[model]`, the stub
    `[model_namespace]` renders to `Shop\ItemItem[model]`.
   */
  lemma ModelTextFromOptionIsReplaced(parentReplaceClass: (string, string) -> string, classArg: string,
                                      front: string, model: string, name: string)
    requires !IsFalsy(classArg) && Plain(front)
    requires parentReplaceClass(ModelNamespacePlaceholder, name) == ModelNamespacePlaceholder
    ensures ReplaceClass(parentReplaceClass, ConsoleInput(classArg, front + ModelPlaceholder),
                         front + ModelPlaceholder, model, ModelNamespacePlaceholder, name)
         == Success(front + model)
  {
    var option := front + ModelPlaceholder;
    CommentTextsPlain();
    assert option[|front|] == '[';
    assert CommentTexts(option) == ("", SetupComment);
    ReplaceClassChain(parentReplaceClass, ConsoleInput(classArg, option), option, model,
                      ModelNamespacePlaceholder, name);
    // [model_namespace] becomes the option
    StrReplaceAtStart(ModelNamespacePlaceholder, option, "");
    assert StrReplace(ModelNamespacePlaceholder, option, ModelNamespacePlaceholder) == option;
    // neither comment placeholder occurs in it
    OptionKeepsThroughComments(front);
    // the [model] it brought in becomes the model name
    ModelPlaceholderAfterPlainText(front, model);
  }

  /** Proof step: plain text followed by `[model]` has no comment placeholder to replace. */
  lemma OptionKeepsThroughComments(front: string)
    requires Plain(front)
    ensures StrReplace(CommentModelPlaceholder, SetupComment,
              StrReplace(CommentNamespacePlaceholder, "", front + ModelPlaceholder))
         == front + ModelPlaceholder
  {
    PlaceholdersWellFormed();
    PlainThenPlaceholder(front, ModelPlaceholder, CommentNamespacePlaceholder);
    StrReplaceWithoutOccurrence(CommentNamespacePlaceholder, "", front + ModelPlaceholder);
    PlainThenPlaceholder(front, ModelPlaceholder, CommentModelPlaceholder);
    StrReplaceWithoutOccurrence(CommentModelPlaceholder, SetupComment, front + ModelPlaceholder);
  }

  /** Proof step: `[model]` after plain text becomes the model name. */
  lemma ModelPlaceholderAfterPlainText(front: string, model: string)
    requires Plain(front)
    ensures StrReplace(ModelPlaceholder, model, front + ModelPlaceholder) == front + model
  {
    StrReplaceSkipsPrefix(ModelPlaceholder, model, front, ModelPlaceholder);
    StrReplaceAtStart(ModelPlaceholder, model, "");
    assert ModelPlaceholder + "" == ModelPlaceholder;
    assert StrReplace(ModelPlaceholder, model, "") == "";
    assert model + "" == model;
  }

  // ---------------------------------------------------------------------
  // Writing
  // ---------------------------------------------------------------------

  /** The files the command sees, by path, and the directories that exist. */
  class Filesystem {
    var entries: map<string, string>
    var directories: set<string>

    constructor (entries: map<string, string>, directories: set<string>)
      ensures this.entries == entries && this.directories == directories
    {
      this.entries := entries;
      this.directories := directories;
    }

    /** Something, a file or a directory, is at `path`. */
    predicate Exists(path: string)
      reads this
    {
      path in entries || path in directories
    }

    /** Creates a directory (nothing happens if it exists). */
    method MakeDirectory(dir: string)
      modifies this
      ensures directories == old(directories) + {dir}
      ensures entries == old(entries)
    {
      directories := directories + {dir};
    }

    /** Writes `contents` at `path`, replacing whatever was there. */
    method Put(path: string, contents: string)
      modifies this
      ensures entries == old(entries)[path := contents]
      ensures directories == old(directories)
    {
      entries := entries[path := contents];
    }
  }

  class MakeRepositoryCommand {
    const input: ConsoleInput
    const files: Filesystem
    /** `getPath(qualifyClass($name))`: the file a class name goes to. */
    const pathOf: string -> string
    /** The directory `makeDirectory($path)` makes sure of. */
    const directoryOf: string -> string
    /** What `buildClass($name)` hands to `replaceClass`: the template read and its namespace replaced. */
    const stubFor: string -> string
    /** `parent::replaceClass($stub, $name)`. */
    const parentReplaceClass: (string, string) -> string

    /** `$this->class`, `$this->modelNamespace`, `$this->model`. */
    var className: string
    var modelNamespace: string
    var model: string
    /** The console lines written so far. */
    var output: seq<string>

    constructor (input: ConsoleInput, files: Filesystem, pathOf: string -> string,
                 directoryOf: string -> string, stubFor: string -> string,
                 parentReplaceClass: (string, string) -> string)
      ensures this.input == input && this.files == files
      ensures this.pathOf == pathOf && this.directoryOf == directoryOf
      ensures this.stubFor == stubFor && this.parentReplaceClass == parentReplaceClass
      ensures className == "" && modelNamespace == "" && model == "" && output == []
    {
      this.input := input;
      this.files := files;
      this.pathOf := pathOf;
      this.directoryOf := directoryOf;
      this.stubFor := stubFor;
      this.parentReplaceClass := parentReplaceClass;
      className, modelNamespace, model, output := "", "", "", [];
    }

    /** `setRepositoryClass`: the class name and the model it wraps. */
    method SetRepositoryClass()
      modifies this`className, this`modelNamespace, this`model
      ensures className == UcFirst(input.classArg)
      ensures modelNamespace == input.modelOption
      ensures model == BareModelName(input.modelOption)
    {
      className := UcFirst(input.classArg);
      modelNamespace := input.modelOption;
      var pieces := Explode("\\", modelNamespace);
      model := pieces[|pieces| - 1];
    }

    /** `buildClass($name)` with the current class and model names. */
    function BuildClass(name: string): Result<string>
      reads this
    {
      ReplaceClass(parentReplaceClass, input, modelNamespace, model, stubFor(name), name)
    }

    /** The message lines of a successful run. */
    function CreatedLines(): seq<string>
      reads this
    {
      [TypeName + " created successfully.", "<info>Created Repository :</info> " + className]
    }

    /**
      `handle`: refuses to touch an existing file; otherwise makes the
      directory, renders the class and writes exactly one new file. A missing
      class argument surfaces from the rendering, after the directory was made
      and before anything is written.
     */
    method Handle() returns (result: HandleResult)
      modifies this`className, this`modelNamespace, this`model, this`output, files
      ensures className == UcFirst(input.classArg)
      ensures modelNamespace == input.modelOption
      ensures model == BareModelName(input.modelOption)
      ensures result == ReturnedFalse <==> pathOf(className) in old(files.entries).Keys + old(files.directories)
      ensures result == ReturnedFalse ==>
                && files.entries == old(files.entries)
                && files.directories == old(files.directories)
                && output == old(output) + [TypeName + " already exists!"]
      ensures result != ReturnedFalse ==>
                files.directories == old(files.directories) + {directoryOf(pathOf(className))}
      ensures result.Raised? <==> pathOf(className) !in old(files.entries).Keys + old(files.directories) && IsFalsy(input.classArg)
      ensures result.Raised? ==>
                && result.error == MissingClassArgument
                && files.entries == old(files.entries)
                && output == old(output)
      ensures result == ReturnedNull ==>
                && BuildClass(className).Success?
                && files.entries == old(files.entries)[pathOf(className) := BuildClass(className).value]
                && files.entries.Keys == old(files.entries).Keys + {pathOf(className)}
                && output == old(output) + CreatedLines()
    {
      SetRepositoryClass();
      var path := pathOf(className);
      if files.Exists(path) {
        output := output + [TypeName + " already exists!"];
        return ReturnedFalse;
      }
      files.MakeDirectory(directoryOf(path));
      var built := BuildClass(className);
      if built.Failure? {
        return Raised(built.error);
      }
      files.Put(path, built.value);
      output := output + CreatedLines();
      return ReturnedNull;
    }
  }

  /**
    Running the command twice never overwrites: the second run reports that
    the repository exists, and the files are what one run leaves.
   */
  method HandleTwice(command: MakeRepositoryCommand) returns (first: HandleResult, second: HandleResult)
    requires !IsFalsy(command.input.classArg)
    modifies command, command.files
    ensures first == ReturnedNull <==> command.pathOf(command.className) !in old(command.files.entries).Keys + old(command.files.directories)
    ensures second == ReturnedFalse
    ensures command.files.entries ==
              if command.pathOf(command.className) in old(command.files.entries).Keys + old(command.files.directories) then old(command.files.entries)
              else old(command.files.entries)[command.pathOf(command.className) := command.BuildClass(command.className).value]
  {
    first := command.Handle();
    second := command.Handle();
  }
}
