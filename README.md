# Ramble workflow managers, HPL, NeMo and NCCL gIB — a Dafny model

Ramble is a framework for describing and running benchmark experiments.
Applications, modifiers and workflow managers are Python classes. They work
on an experiment's variables through an expander that renders `{name}`
references.

This project models the following pieces of Ramble, together with the
small part of Ramble's utilities they rely on:

- **The workflow manager base class** (`WorkflowManager`). It holds the
  application instance it serves. `conditional_expand` renders a list of
  templates strictly and keeps only the non-empty results. `copy` builds a
  fresh manager for the same file. `get_status` has no answer (`None`).
- **The `workflow_manager_variable` directive** (`WorkflowManagerLanguage`).
  It records a `WorkloadVariable` under its name in the manager's `wm_vars`.
- **The Slurm workflow manager** (`Slurm`):
  - its three variables;
  - the `#SBATCH` header block, including the user's extra headers;
  - the job-status query: read the job id, ask `squeue`, fall back to
    `sacct`, then map the scheduler's state through the status table;
  - the `SlurmRunner` object that creates its command runners on first use.
- **The HPL base application** (`Hpl`):
  - the integer square root;
  - the "calculator" workloads' choice of the process grid P x Q, the least
    common multiple of P and Q, and the problem size aligned to NB * lcm;
  - merging calculated values and comments into the 29 HPL settings, padded
    with `pad_value` or raw for `mxp` workloads;
  - the lines of `HPL.dat`.
- **The py-nemo application** (`PyNemo`):
  - ingesting the options of a base YAML config as defaults;
  - the `model.ffn_hidden_size` rule;
  - writing the experiment's config: set every dotted variable, then remove
    the requested options;
  - log preprocessing: clean the garbled characters, sum the elapsed
    `MM:SS` times of the matching lines, and write
    `Elapsed seconds: N`.
- **The nccl-gib modifier** (`NcclGib`):
  - the shell-specific guarded block that sources the NCCL environment
    script from its own directory;
  - the NCCL socket-interface export;
  - the order of the two builtins.
- **The dotted-key YAML helpers** used by py-nemo (`YamlGeneration`):
  `all_config_options`, `get_config_value`, `set_config_value` (with and
  without `force`) and `remove_config_value`, on nested dictionaries.

How the model is built:

- The shared pieces live in their own modules:
  - `Values`: Python/YAML values;
  - `Expansion`: the expander, given as a pair of functions, one for
    string expansion and one for typed expansion;
  - `Application`: the application instance, a class whose `variables` map
    is updated by `define_variable`;
  - `Text`: the Python string operations used: `strip`, `split`, `join`,
    `replace`, `int()`, `str()`, left justification, `os.path.dirname`,
    `os.path.join`.
- Objects whose fields the source updates are classes with `modifies`
  clauses:
  - `WorkflowManagerBase`, `Slurm`, `SlurmRunner` and `CommandRunner`;
  - the application instance;
  - `ConfigData`, the YAML dictionary that `set_config_value` and
    `remove_config_value` mutate.
- Each loop of the source is a method with invariants. The method is proved
  equal to a specification function, and the lemmas state what that
  function means.
- The Slurm manager keeps a `WorkflowManagerBase` as a field, in place of
  the Python subclassing.

Where the code and its comments disagree, the model follows the code.

- The py-nemo ingestion comment promises a default for
  `model.ffn_hidden_size` only "if not already set". The code, however,
  always defines it from the base config, overriding a user's value
  (`PyNemo.IngestOverridesFfnHiddenSize`).

## Model

| member | source | states |
|---|---|---|
| Application.Application.DefineVariable | var/ramble/repos/builtin/base_applications/hpl/base_application.py:458-460 | defining a variable binds exactly that name to the value; every other variable keeps its value |
| Application.Application.DefineMissing | var/ramble/repos/builtin/base_applications/hpl/base_application.py:420-422 | the loop defines each default whose name is not yet a variable, so the new store is the old one completed by the defaults |
| Application.DefineMissingStep | var/ramble/repos/builtin/base_applications/hpl/base_application.py:420-422 | defining one more missing default completes the store by that default |
| Application.WithDefaults | var/ramble/repos/builtin/applications/py-nemo/application.py:498-506 | the names are the old names plus the defaults' names; an existing variable keeps its value and a missing one takes the default |
| Text.StripIsMaximalSlice | var/ramble/repos/builtin/workflow_managers/slurm/workflow_manager.py:124 | `strip()` returns a contiguous slice of the input, and everything it cut off at either end is whitespace |
| Text.StripEndsAreNonSpace | var/ramble/repos/builtin/workflow_managers/slurm/workflow_manager.py:175 | a non-empty stripped string begins and ends with a non-whitespace character |
| Text.StripIdempotent | var/ramble/repos/builtin/workflow_managers/slurm/workflow_manager.py:175 | stripping a stripped string changes nothing |
| Text.Split | var/ramble/repos/builtin/applications/py-nemo/application.py:639 | `split(sep)` yields at least one piece |
| Text.SplitPiecesLackSeparator | var/ramble/repos/builtin/applications/py-nemo/application.py:639 | no piece of `split(sep)` contains the separator |
| Text.JoinSplit | var/ramble/repos/builtin/workflow_managers/slurm/workflow_manager.py:108 | joining the pieces of a split with the separator gives the string back |
| Text.SplitJoin | var/ramble/repos/builtin/workflow_managers/slurm/workflow_manager.py:108-112 | splitting a join of separator-free pieces gives the pieces back |
| Text.SplitWithoutSeparator | var/ramble/repos/builtin/workflow_managers/slurm/workflow_manager.py:108 | a string without the separator splits into itself alone |
| Text.SplitConcat | var/ramble/repos/builtin/applications/py-nemo/application.py:639 | a separator-free prefix followed by the separator splits off as the first piece |
| Text.JoinEndsWithLast | var/ramble/repos/builtin/workflow_managers/slurm/workflow_manager.py:112 | a join ends with its last piece |
| Text.JoinAppend | var/ramble/repos/builtin/workflow_managers/slurm/workflow_manager.py:109-112 | joining two non-empty lists is joining their joins with one separator |
| Text.ReplaceCharRemovesIt | var/ramble/repos/builtin/applications/py-nemo/application.py:627-629 | replacing a character by text without it leaves no occurrence, and replacing it by nothing deletes exactly that character |
| Text.Without | var/ramble/repos/builtin/applications/py-nemo/application.py:629 | deleting a character leaves no occurrence of it and never lengthens the text |
| Text.ReplaceAbsent | var/ramble/repos/builtin/applications/py-nemo/application.py:628 | replacing text that does not occur changes nothing |
| Text.ReplaceKeepsCharOut | var/ramble/repos/builtin/applications/py-nemo/application.py:627-629 | a character absent from both the text and the replacement is absent after replacing |
| Text.NatToString | var/ramble/repos/builtin/applications/py-nemo/application.py:652 | `str(n)` of a natural number is a non-empty run of digits whose decimal value is n |
| Text.ParseInt | var/ramble/repos/builtin/applications/py-nemo/application.py:644 | `int()` accepts only a string whose stripped form is non-empty |
| Text.IntToStringRoundTrip | var/ramble/repos/builtin/applications/py-nemo/application.py:513 | `int(str(i)) == i` for every integer |
| Text.IntToStringIsStripped | var/ramble/repos/builtin/applications/py-nemo/application.py:513 | a printed integer has no surrounding whitespace, so the strip inside `int()` leaves it alone |
| Text.DigitRunParses | var/ramble/repos/builtin/applications/py-nemo/application.py:644 | `int()` accepts a run of digits and reads its decimal value |
| Text.Spaces | var/ramble/repos/builtin/base_applications/hpl/base_application.py:16 | the padding is the requested number of spaces |
| Text.LeftJustify | var/ramble/repos/builtin/base_applications/hpl/base_application.py:16 | `{:<w}` keeps the text as a prefix, pads with spaces to width w, and never truncates |
| Text.RStripCharPrefix | var/ramble/repos/builtin/modifiers/nccl-gib/modifier.py:55 | `rstrip(c)` keeps a prefix that does not end in c and removes only c |
| Text.AfterLastSlashIsLast | var/ramble/repos/builtin/modifiers/nccl-gib/modifier.py:55 | the split point of a path follows its last `/` and no `/` comes after it |
| Text.DirnameSplitsPath | var/ramble/repos/builtin/modifiers/nccl-gib/modifier.py:55 | `dirname` is a prefix of the path, followed only by slashes and a slash-free name, and ends in `/` only when it is all slashes |
| Text.DirnameIsPrefix | var/ramble/repos/builtin/modifiers/nccl-gib/modifier.py:55 | `dirname` is a prefix of the path |
| Text.DirnameLeavesBase | var/ramble/repos/builtin/modifiers/nccl-gib/modifier.py:55 | what follows `dirname` is a run of slashes and then a slash-free name |
| Text.DirnameEndsInSlashOnlyWhenAllSlashes | var/ramble/repos/builtin/modifiers/nccl-gib/modifier.py:55 | `dirname` ends in `/` only when it consists of slashes alone |
| Text.PathJoin | var/ramble/repos/builtin/workflow_managers/slurm/workflow_manager.py:118 | `os.path.join` of a directory and a relative name begins with the directory and ends with the name |
| YamlGeneration.PathOf | lib/ramble/ramble/test/util/yaml_generation.py:69-72 | a dotted option name names a non-empty key path |
| YamlGeneration.ConfigData.SetConfigValue | lib/ramble/ramble/test/util/yaml_generation.py:80-92 | `set_config_value` replaces the dictionary with the path-wise update, in place |
| YamlGeneration.ConfigData.RemoveConfigValue | lib/ramble/ramble/test/util/yaml_generation.py:95-105 | `remove_config_value` replaces the dictionary with the path-wise removal, in place |
| YamlGeneration.LeafPathsAreLeaves | lib/ramble/ramble/test/util/yaml_generation.py:55-62 | a key path is an option exactly when it leads to a value that is not a dictionary |
| YamlGeneration.LeafPathsOfMapNonEmpty | lib/ramble/ramble/test/util/yaml_generation.py:55-62 | every option of a config has at least one key |
| YamlGeneration.LeafPathKeysDotFree | lib/ramble/ramble/test/util/yaml_generation.py:55-62 | in a config whose keys have no dots, no key on an option's path has a dot |
| YamlGeneration.OptionPath | lib/ramble/ramble/test/util/yaml_generation.py:55-77 | the dotted name of an option splits back into that option's key path |
| YamlGeneration.OptionsAreLeaves | lib/ramble/ramble/test/util/yaml_generation.py:55-77 | every listed option has a non-dictionary value under `get_config_value`, and every leaf path is listed under its dotted name with that value |
| YamlGeneration.GetAfterSet | lib/ramble/ramble/test/util/yaml_generation.py:83-84 | after a set on a settable path, reading the path gives the new value |
| YamlGeneration.SettableInEmpty | lib/ramble/ramble/test/util/yaml_generation.py:91-92 | with `force`, any path can be set in an empty dictionary |
| YamlGeneration.UnsettableIsNoOp | lib/ramble/ramble/test/util/yaml_generation.py:86-88 | without `force`, a set through a missing intermediate key changes nothing |
| YamlGeneration.ForceSettable | lib/ramble/ramble/test/util/yaml_generation.py:90-92 | with `force`, a path is settable whenever no prefix of it is a non-dictionary value |
| YamlGeneration.SetKeepsOtherPaths | lib/ramble/ramble/test/util/yaml_generation.py:80-92 | a set leaves every path that leaves the set path's branch untouched |
| YamlGeneration.GetFromEmpty | lib/ramble/ramble/test/util/yaml_generation.py:65-77 | no non-empty path is found in an empty dictionary |
| YamlGeneration.RemoveMakesAbsent | lib/ramble/ramble/test/util/yaml_generation.py:98-104 | after a removal the removed path is no longer found |
| YamlGeneration.RemoveKeepsAbsent | lib/ramble/ramble/test/util/yaml_generation.py:95-105 | a removal never makes a missing path appear |
| YamlGeneration.RemoveKeepsOtherPaths | lib/ramble/ramble/test/util/yaml_generation.py:103-105 | a removal leaves every existing path outside the removed branch untouched |
| YamlGeneration.RemoveKeepsNoEmptyMaps | lib/ramble/ramble/test/util/yaml_generation.py:98-100 | a parent emptied by a removal is removed as well, so a config without empty dictionaries keeps none |
| YamlGenerationExamples.DottedName | lib/ramble/ramble/test/util/yaml_generation.py:59-62 | a dotted name built from dot-free keys splits back into those keys |
| YamlGenerationExamples.FixtureLeaves | lib/ramble/ramble/test/util/yaml_generation.py:65-77 | the test fixture's four options have the values the test expects |
| YamlGenerationExamples.FixtureSet | lib/ramble/ramble/test/util/yaml_generation.py:80-92 | the set test: an existing option is overwritten, a missing branch is left alone without `force` and created with it |
| YamlGenerationExamples.FixtureRemove | lib/ramble/ramble/test/util/yaml_generation.py:95-105 | the remove test: removing the only leaf removes its emptied parents, and removing a sibling keeps the other child |
| WorkflowManager.WorkflowManagerBase.constructor | lib/ramble/ramble/workflow_manager.py:32-42 | a new manager has its name and file path, no application and no variables |
| WorkflowManager.WorkflowManagerBase.SetApplication | lib/ramble/ramble/workflow_manager.py:44-46 | the manager now refers to the given application instance |
| WorkflowManager.WorkflowManagerBase.GetStatus | lib/ramble/ramble/workflow_manager.py:48-50 | the base manager never knows a status |
| WorkflowManager.WorkflowManagerBase.ConditionalExpand | lib/ramble/ramble/workflow_manager.py:52-71 | the loop returns the strict expansions of the templates that expand to non-empty text, in order |
| WorkflowManager.WorkflowManagerBase.Copy | lib/ramble/ramble/workflow_manager.py:73-77 | a copy is a fresh manager for the same file, with no application attached |
| WorkflowManager.RenderedBounds | lib/ramble/ramble/workflow_manager.py:52-71 | never more lines than templates, no empty line, nothing from nothing |
| WorkflowManager.RenderedAppend | lib/ramble/ramble/workflow_manager.py:63-70 | templates are expanded one by one, so expanding a concatenation concatenates the expansions |
| WorkflowManager.RenderedIsOrderedSelection | lib/ramble/ramble/workflow_manager.py:52-71 | the result is the expansions of an increasing selection of templates, and a template is selected exactly when it expands to non-empty text |
| WorkflowManager.FailingTemplateIsDropped | lib/ramble/ramble/workflow_manager.py:68-70 | a template whose expansion raises is skipped and the others are kept |
| WorkflowManager.RenderedUsesStrictExpansion | lib/ramble/ramble/workflow_manager.py:65 | the result depends only on expansion without passthrough |
| WorkflowManager.UndefinedReferenceDropped | lib/ramble/ramble/workflow_manager.py:56-57 | a template with an undefined variable is dropped even when passthrough would have kept it |
| WorkflowManagerLanguage.ApplyDefinition | lib/ramble/ramble/language/workflow_manager_language.py:37-45 | the directive stores the variable under its name and changes no other entry |
| WorkflowManagerLanguage.ApplyDefinitions | lib/ramble/ramble/language/workflow_manager_language.py:22-47 | running the directives in order gives the declared variables |
| WorkflowManagerLanguage.DeclaredKeys | lib/ramble/ramble/language/workflow_manager_language.py:37-45 | the names afterwards are the earlier names plus the declared names |
| WorkflowManagerLanguage.DeclaredKeepsOthers | lib/ramble/ramble/language/workflow_manager_language.py:37-45 | an entry that no definition names keeps its value |
| WorkflowManagerLanguage.LastDeclarationWins | lib/ramble/ramble/language/workflow_manager_language.py:40-45 | a name declared twice keeps its last declaration |
| WorkflowManagerLanguage.DeclaredKeyedByName | lib/ramble/ramble/language/workflow_manager_language.py:40 | every variable is stored under its own name |
| WorkflowManagerLanguage.DirectiveDeclares | lib/ramble/ramble/language/workflow_manager_language.py:23-45 | one directive stores a variable with the given name, default, description and values, with no values by default |
| Slurm.StatusNamed | var/ramble/repos/builtin/workflow_managers/slurm/workflow_manager.py:128-129 | a name denotes an experiment status exactly when it is one of the five members the model gives `experiment_status`; this covers every name `_STATUS_MAP` yields and UNKNOWN |
| Slurm.StatusMapNamesAreStatuses | var/ramble/repos/builtin/workflow_managers/slurm/workflow_manager.py:18-26 | every name `_STATUS_MAP` yields passes the `hasattr` test of lines 128-129 |
| Slurm.NormalizeStatus | var/ramble/repos/builtin/workflow_managers/slurm/workflow_manager.py:18-26 | PD and CF mean SETUP, R means RUNNING, CG and COMPLETED mean COMPLETE, CANCELLED and CANCELLED+ mean CANCELLED, and anything else, or no answer, means UNKNOWN (each an if-and-only-if) |
| Slurm.CommandRunner.constructor | var/ramble/repos/builtin/workflow_managers/slurm/workflow_manager.py:148 | a runner runs the command it is named after |
| Slurm.SlurmRunner.constructor | var/ramble/repos/builtin/workflow_managers/slurm/workflow_manager.py:136-140 | a new runner has the given dry-run flag, no command runners and no run directory |
| Slurm.SlurmRunner.EnsureRunner | var/ramble/repos/builtin/workflow_managers/slurm/workflow_manager.py:142-149 | the named runner is created only when missing, runs its own command, and the other runner is untouched |
| Slurm.SlurmRunner.SetDryRun | var/ramble/repos/builtin/workflow_managers/slurm/workflow_manager.py:151-155 | the dry-run flag takes the given value |
| Slurm.SlurmRunner.GetStatus | var/ramble/repos/builtin/workflow_managers/slurm/workflow_manager.py:157-175 | the answer is the status query's result; a dry run creates no runner; otherwise squeue's runner exists afterwards, and sacct's runner is created or kept only when squeue gives nothing |
| Slurm.Slurm.constructor | var/ramble/repos/builtin/workflow_managers/slurm/workflow_manager.py:46-67 | a new Slurm manager is named slurm, holds its three declared variables and a fresh non-dry-run runner |
| Slurm.Slurm.ExecuteVars | var/ramble/repos/builtin/workflow_managers/slurm/workflow_manager.py:92-113 | the template variables are exactly `sbatch_headers_str`, the rendered header block |
| Slurm.Slurm.GetStatus | var/ramble/repos/builtin/workflow_managers/slurm/workflow_manager.py:115-130 | the status is the one read from the job file, queried and mapped; once the job id is read the runner's dry-run flag is the workspace's; outside a dry run the squeue runner is created or kept, and the sacct runner is created or kept only when squeue prints nothing for that id, otherwise left as it was; without a job id the runner is unchanged |
| Slurm.JobIdRead | var/ramble/repos/builtin/workflow_managers/slurm/workflow_manager.py:117-124 | a job id is read exactly when the run directory expands and `.slurm_job` exists in it |
| Slurm.Slurm.Copy | lib/ramble/ramble/workflow_manager.py:73-77 | a copy is a fresh Slurm manager for the same file, with its declared variables and a new runner that has no squeue or sacct runner yet |
| Slurm.SlurmVariables | var/ramble/repos/builtin/workflow_managers/slurm/workflow_manager.py:51-67 | the manager declares exactly `job_name`, `extra_sbatch_headers` and `hostlist`, with their defaults |
| Slurm.UnmappedTokenIsUnknown | var/ramble/repos/builtin/workflow_managers/slurm/workflow_manager.py:127-130 | a scheduler state outside the table leaves the status UNKNOWN |
| Slurm.QueryStatusIsStripped | var/ramble/repos/builtin/workflow_managers/slurm/workflow_manager.py:175 | the returned scheduler state carries no surrounding whitespace |
| Slurm.SacctIgnoredWhenSqueueAnswers | var/ramble/repos/builtin/workflow_managers/slurm/workflow_manager.py:171-174 | when squeue prints something, sacct's answer does not matter |
| Slurm.SqueueFailureFallsBackToSacct | var/ramble/repos/builtin/workflow_managers/slurm/workflow_manager.py:166-174 | a failing squeue behaves like an empty one: sacct is asked |
| Slurm.NoQueryMeansUnknown | var/ramble/repos/builtin/workflow_managers/slurm/workflow_manager.py:117-122 | without a job file, or in a dry run, the status is UNKNOWN |
| Slurm.StatusDependsOnlyOnJobCommands | var/ramble/repos/builtin/workflow_managers/slurm/workflow_manager.py:123-130 | the status depends only on squeue's and sacct's answers for the job id read from the file |
| Slurm.StatusIsNormalizedAnswer | var/ramble/repos/builtin/workflow_managers/slurm/workflow_manager.py:123-130 | the status is the table's mapping of the runner's answer for the stripped job id |
| Slurm.ExtraHeadersFailing | var/ramble/repos/builtin/workflow_managers/slurm/workflow_manager.py:104-112 | when the extra headers cannot be expanded, only the built-in pragmas are rendered |
| Slurm.ExtraHeaderComesLast | var/ramble/repos/builtin/workflow_managers/slurm/workflow_manager.py:104-112 | a one-line extra header that expands to non-empty text is the last line of the header block |
| Slurm.RenderedLastLine | var/ramble/repos/builtin/workflow_managers/slurm/workflow_manager.py:109-112 | an appended template that expands to non-empty text is rendered last |
| Hpl.Isqrt | var/ramble/repos/builtin/base_applications/hpl/base_application.py:356-367 | `_isqrt` raises for a negative input and otherwise returns r with r*r <= n < (r+1)*(r+1), and n itself below 2 |
| Hpl.IsqrtUnique | var/ramble/repos/builtin/base_applications/hpl/base_application.py:356-367 | the result is the only such r |
| Hpl.LargestDivisorUpTo | var/ramble/repos/builtin/base_applications/hpl/base_application.py:387-390 | the downward search ends at a divisor of the core count between 1 and its start |
| Hpl.LargestDivisorUpToIsLargest | var/ramble/repos/builtin/base_applications/hpl/base_application.py:387-390 | no number above the divisor found and up to the start divides the core count |
| Hpl.BestGrid | var/ramble/repos/builtin/base_applications/hpl/base_application.py:384-392 | a negative core count raises in the square root, zero raises a division by zero, otherwise 1 <= P <= Q |
| Hpl.BestGridIsBest | var/ramble/repos/builtin/base_applications/hpl/base_application.py:377-392 | for positive cores, P * Q is the core count, P <= Q, and no divisor between P and the square root exists |
| Hpl.BestGridUnique | var/ramble/repos/builtin/base_applications/hpl/base_application.py:377-392 | any best grid is the one computed |
| Hpl.BestGridsAgree | var/ramble/repos/builtin/base_applications/hpl/base_application.py:377-392 | two best grids for the same core count are the same grid |
| Hpl.ChooseGrid | var/ramble/repos/builtin/base_applications/hpl/base_application.py:386-392 | the square root and decrementing loop compute the best grid |
| Hpl.LeastMultipleFrom | var/ramble/repos/builtin/base_applications/hpl/base_application.py:397-399 | stepping by Q never goes below its start |
| Hpl.Lcm | var/ramble/repos/builtin/base_applications/hpl/base_application.py:397-399 | the lcm is at least Q |
| Hpl.LeastMultipleFromIsLeast | var/ramble/repos/builtin/base_applications/hpl/base_application.py:397-399 | stepping by Q stops at the first multiple of Q that P divides |
| Hpl.NextMultiple | var/ramble/repos/builtin/base_applications/hpl/base_application.py:397-399 | while P does not divide the current multiple of Q, the next multiple of Q is still at most P * Q |
| Hpl.LcmIsLeastCommonMultiple | var/ramble/repos/builtin/base_applications/hpl/base_application.py:394-399 | the loop's result is a common multiple of P and Q and no smaller positive one exists |
| Hpl.LeastCommonMultiple | var/ramble/repos/builtin/base_applications/hpl/base_application.py:395-399 | the loop computes the lcm |
| Hpl.AlignProblemSize | var/ramble/repos/builtin/base_applications/hpl/base_application.py:412-417 | the alignment raises exactly for a zero block size |
| Hpl.ProblemSizeIsAligned | var/ramble/repos/builtin/base_applications/hpl/base_application.py:412-417 | for a positive block size, N is the largest multiple of NB * lcm not above the target |
| Hpl.AlignedValue | var/ramble/repos/builtin/base_applications/hpl/base_application.py:412-417 | for a positive block size N is NB * (lcm * ((target // NB) // lcm)) |
| Hpl.AlignedBounds | var/ramble/repos/builtin/base_applications/hpl/base_application.py:412-417 | that N is at most the target and less than NB * lcm below it |
| Hpl.AlignedDivides | var/ramble/repos/builtin/base_applications/hpl/base_application.py:412-417 | NB * lcm divides that N |
| Hpl.PadValue | var/ramble/repos/builtin/base_applications/hpl/base_application.py:15-16 | the value is left-justified in 14 columns, padded with spaces, and followed by the description |
| Hpl.ApplySettingsDefines | var/ramble/repos/builtin/base_applications/hpl/base_application.py:443-460 | after the loop, each setting holds its own definition from its last occurrence |
| Hpl.ApplySettingsKeeps | var/ramble/repos/builtin/base_applications/hpl/base_application.py:443-460 | variables that are not settings keep their values |
| Hpl.StandardSettingKeepsExpansion | var/ramble/repos/builtin/base_applications/hpl/base_application.py:443-460 | without calculated settings a setting is its expanded value padded before its comment |
| Hpl.OverrideWins | var/ramble/repos/builtin/base_applications/hpl/base_application.py:449-460 | a calculated value replaces the expansion, and its comment extends the description; `mxp` workloads get the raw value |
| Hpl.Calculate | var/ramble/repos/builtin/base_applications/hpl/base_application.py:379-418 | a successful calculation used the best grid of nodes times processes per node, the lcm of P and Q, and the aligned problem size |
| Hpl.CalculatedValuesAreSound | var/ramble/repos/builtin/base_applications/hpl/base_application.py:377-417 | the calculated grid is the best one, the lcm is the least common multiple, and N is the largest aligned size not above the target |
| Hpl.HplSettingsCalculatedSlots | var/ramble/repos/builtin/base_applications/hpl/base_application.py:320-353 | Ns, Ps and Qs sit at their places in `hpl_settings` and are not named again |
| Hpl.HplSettingsCount | var/ramble/repos/builtin/base_applications/hpl/base_application.py:320-353 | `hpl_settings` names 29 settings |
| Hpl.CalculatorDefinesGrid | var/ramble/repos/builtin/base_applications/hpl/base_application.py:427-460 | a calculator workload's Ps, Qs and Ns hold the calculated P, Q and N, padded, with the memory comment on Ns |
| Hpl.CalculatorSettingsStored | var/ramble/repos/builtin/base_applications/hpl/base_application.py:427-460 | the settings loop stores the calculated P, Q and N whatever the starting variables |
| Hpl.StoredOverride | var/ramble/repos/builtin/base_applications/hpl/base_application.py:449-460 | a setting with a calculated value ends up holding it, padded before its comment |
| Hpl.CalculatorOverridesGrid | var/ramble/repos/builtin/base_applications/hpl/base_application.py:427-438 | `calculated_settings` maps Ns, Ps and Qs to N, P and Q |
| Hpl.CalculatorBranch | var/ramble/repos/builtin/base_applications/hpl/base_application.py:376-460 | a calculator workload defines the standard defaults and then applies the calculated settings |
| Hpl.CalculatedSetting | var/ramble/repos/builtin/base_applications/hpl/base_application.py:449-460 | a setting with a calculated value is defined as that value padded before the extended comment |
| Hpl.CalculateValues | var/ramble/repos/builtin/base_applications/hpl/base_application.py:373-460 | the phase changes the variables exactly as the specification of `_calculate_values` says |
| Hpl.CalculatorSteps | var/ramble/repos/builtin/base_applications/hpl/base_application.py:379-418 | the step-by-step arithmetic with its two loops computes the calculation |
| Hpl.ApplyHplSettings | var/ramble/repos/builtin/base_applications/hpl/base_application.py:443-460 | the settings loop defines the settings one by one as specified |
| Hpl.SettingNames | var/ramble/repos/builtin/base_applications/hpl/base_application.py:469-499 | the names written to HPL.dat are the settings' names, in order |
| Hpl.TerminatedAppend | var/ramble/repos/builtin/base_applications/hpl/base_application.py:507-513 | writing one more line appends it and its newline |
| Hpl.DatLines | var/ramble/repos/builtin/base_applications/hpl/base_application.py:507-513 | one written line per setting, or the first expansion error |
| Hpl.DatLinesContents | var/ramble/repos/builtin/base_applications/hpl/base_application.py:507-513 | each written line is its setting's expansion with "Number" replaced by `#` |
| Hpl.DatLinesStep | var/ramble/repos/builtin/base_applications/hpl/base_application.py:507-513 | writing the next setting appends its line |
| Hpl.WriteSettingLines | var/ramble/repos/builtin/base_applications/hpl/base_application.py:507-513 | the writing loop appends each setting's line and its newline after the header, or stops with the first expansion error |
| Hpl.TerminatedConcat | var/ramble/repos/builtin/base_applications/hpl/base_application.py:507-513 | writing two runs of lines writes the first and then the second |
| Hpl.MakeHplDat | var/ramble/repos/builtin/base_applications/hpl/base_application.py:462-519 | HPL.dat is the two header lines, the setting lines and the separator, or the first expansion error |
| Hpl.DatLinesFailurePersists | var/ramble/repos/builtin/base_applications/hpl/base_application.py:507-513 | once a setting fails to expand, the whole file fails with that error |
| Hpl.SplitTerminated | var/ramble/repos/builtin/base_applications/hpl/base_application.py:501-513 | newline-terminated lines read back as those lines |
| Hpl.HeaderHasNoNewline | var/ramble/repos/builtin/base_applications/hpl/base_application.py:502-505 | the two header lines contain no newline |
| Hpl.FooterHasNoNewline | var/ramble/repos/builtin/base_applications/hpl/base_application.py:516-518 | the separator line contains no newline |
| Hpl.DatLayout | var/ramble/repos/builtin/base_applications/hpl/base_application.py:501-518 | read back line by line, HPL.dat is the header, one line per setting and the separator |
| Hpl.SeparatorIsLine32 | var/ramble/repos/builtin/base_applications/hpl/base_application.py:516-518 | with 29 settings that each expand without a newline, the file has 32 lines and the separator is line 32, as its text says |
| PyNemo.FfnHiddenSizeCases | var/ramble/repos/builtin/applications/py-nemo/application.py:508-520 | an int-convertible value becomes an int, a string `int()` rejects becomes the fallback template, and any other value raises a TypeError (an if-and-only-if) |
| PyNemo.FfnHiddenSizeOfDigits | var/ramble/repos/builtin/applications/py-nemo/application.py:512-513 | a printed integer is read back as that integer |
| PyNemo.IngestWithoutConfig | var/ramble/repos/builtin/applications/py-nemo/application.py:492-494 | without a base config nothing changes |
| PyNemo.IngestKeepsAndDefines | var/ramble/repos/builtin/applications/py-nemo/application.py:498-506 | defined variables keep their values and every undefined option is defined from the config |
| PyNemo.DefaultsThenOverride | var/ramble/repos/builtin/applications/py-nemo/application.py:498-520 | filling in the defaults and then overriding `model.ffn_hidden_size` keeps every other defined variable and defines every other missing option from the config |
| PyNemo.IngestFfnHiddenSize | var/ramble/repos/builtin/applications/py-nemo/application.py:508-520 | on success `model.ffn_hidden_size` is an int or the fallback template; the phase fails exactly with a TypeError on a non-numeric, non-string value |
| PyNemo.IngestOverridesFfnHiddenSize | var/ramble/repos/builtin/applications/py-nemo/application.py:508-520 | an integer in the config overrides a user's own `model.ffn_hidden_size` |
| PyNemo.IngestDefaultConfigs | var/ramble/repos/builtin/applications/py-nemo/application.py:481-520 | the phase changes the variables as the ingestion specification says |
| PyNemo.OptionNameHasSeveralKeys | var/ramble/repos/builtin/applications/py-nemo/application.py:552 | a name with a dot splits into more than one key, so the source's second test adds nothing |
| PyNemo.SeparatorSplits | var/ramble/repos/builtin/applications/py-nemo/application.py:552 | a string containing the separator splits into several pieces |
| PyNemo.ExpandItemsMeaning | var/ramble/repos/builtin/applications/py-nemo/application.py:562-566 | on success each item is replaced by its typed expansion; it fails exactly when some item fails |
| PyNemo.ExpandListItems | var/ramble/repos/builtin/applications/py-nemo/application.py:563-566 | the in-place loop computes the item-wise expansion |
| PyNemo.ExpandItemsAppend | var/ramble/repos/builtin/applications/py-nemo/application.py:563-566 | expanding one more item appends its expansion |
| PyNemo.ExpandItemsFailure | var/ramble/repos/builtin/applications/py-nemo/application.py:563-566 | the first failing item's error is the error of the whole list |
| PyNemo.ConfigValueShape | var/ramble/repos/builtin/applications/py-nemo/application.py:553-566 | a tuple falls back to the untyped expansion, a list keeps its length, a failed expansion fails, and no tuple is ever written |
| PyNemo.OptionNames | var/ramble/repos/builtin/applications/py-nemo/application.py:551-552 | the option names are exactly the dotted variable names |
| PyNemo.UndottedNamesIgnored | var/ramble/repos/builtin/applications/py-nemo/application.py:551-570 | setting options from all variables is setting them from the dotted ones |
| PyNemo.RemovedOptionsAbsent | var/ramble/repos/builtin/applications/py-nemo/application.py:573-577 | every dotted name asked for removal is absent afterwards |
| PyNemo.StaysAbsent | var/ramble/repos/builtin/applications/py-nemo/application.py:573-577 | removals never make a missing path appear |
| PyNemo.WriteRemovesOptions | var/ramble/repos/builtin/applications/py-nemo/application.py:550-577 | in the written config, every option asked for removal is absent, even if a variable set it |
| PyNemo.WriteSetsLastOption | var/ramble/repos/builtin/applications/py-nemo/application.py:551-570 | a dotted variable is written, forcibly, at its key path with its expanded value |
| PyNemo.WriteConfig | var/ramble/repos/builtin/applications/py-nemo/application.py:526-577 | without a base config nothing is written; otherwise the loops on the config object give the specified config or error |
| PyNemo.CleanLogRemoves | var/ramble/repos/builtin/applications/py-nemo/application.py:626-630 | the cleaned log has no `\x13` and no `â` |
| PyNemo.LineLength | var/ramble/repos/builtin/applications/py-nemo/application.py:633 | a line takes at least one character and at most the whole text |
| PyNemo.LineLengthShape | var/ramble/repos/builtin/applications/py-nemo/application.py:633 | a line runs to and including the first newline, or to the end |
| PyNemo.ReadLinesShape | var/ramble/repos/builtin/applications/py-nemo/application.py:632-633 | `readlines()` gives non-empty lines with a newline only at the end, and every line but the last ends in one |
| PyNemo.ReadLinesConcat | var/ramble/repos/builtin/applications/py-nemo/application.py:632-633 | the lines concatenate back to the text |
| PyNemo.Pow60 | var/ramble/repos/builtin/applications/py-nemo/application.py:642-645 | the multiplier is always positive |
| PyNemo.Base60Prepend | var/ramble/repos/builtin/applications/py-nemo/application.py:641-645 | a leading part counts its value times 60 to the number of parts after it |
| PyNemo.Base60Examples | var/ramble/repos/builtin/applications/py-nemo/application.py:639-646 | `12:34` is 754 seconds and `1:02:03` is 3723 |
| PyNemo.ParseParts | var/ramble/repos/builtin/applications/py-nemo/application.py:643-644 | every part is converted, one number per part |
| PyNemo.FromTimestamp | var/ramble/repos/builtin/applications/py-nemo/application.py:637-646 | the reversed loop with a growing multiplier computes the base-60 value of the parts |
| PyNemo.ParsePartsFails | var/ramble/repos/builtin/applications/py-nemo/application.py:643-644 | the loop runs from the last part, so the last part `int()` rejects is the error reported |
| PyNemo.ContributionsAppend | var/ramble/repos/builtin/applications/py-nemo/application.py:633-646 | the contributions of two runs of lines are the first run's followed by the second's |
| PyNemo.TotalStep | var/ramble/repos/builtin/applications/py-nemo/application.py:636-646 | adding the next contribution to the running sum keeps the total, and a failing one is the total |
| PyNemo.LineElapsed | var/ramble/repos/builtin/applications/py-nemo/application.py:634-646 | one line contributes the seconds of its matched timestamp, zero without a match, or the conversion error |
| PyNemo.SumElapsed | var/ramble/repos/builtin/applications/py-nemo/application.py:633-646 | the accumulation loop computes the total of the lines' contributions, stopping at the first error |
| PyNemo.TotalOfZeros | var/ramble/repos/builtin/applications/py-nemo/application.py:636-646 | lines that contribute nothing sum to zero |
| PyNemo.NoMatchIsZero | var/ramble/repos/builtin/applications/py-nemo/application.py:633-646 | with no matching line the elapsed time is zero |
| PyNemo.TotalAppend | var/ramble/repos/builtin/applications/py-nemo/application.py:633-646 | the total of two runs of lines is the sum of their totals |
| PyNemo.TotalFailure | var/ramble/repos/builtin/applications/py-nemo/application.py:633-646 | the first line whose timestamp `int()` rejects stops the phase with its error |
| PyNemo.ElapsedTimeParts | var/ramble/repos/builtin/applications/py-nemo/application.py:639-646 | `MM:SS` splits at the colon and is read as the two base-60 digits MM and SS |
| PyNemo.ElapsedTimeSeconds | var/ramble/repos/builtin/applications/py-nemo/application.py:337-339 | an `elapsed_time` group `[0-9]+:[0-9]+` converts without error to a non-negative number of seconds |
| PyNemo.TotalOfNonNegatives | var/ramble/repos/builtin/applications/py-nemo/application.py:636-646 | non-negative contributions sum to a non-negative total |
| PyNemo.ElapsedSumSucceeds | var/ramble/repos/builtin/applications/py-nemo/application.py:615-646 | with the final-epoch pattern no timestamp is rejected by `int()` and the elapsed seconds are never negative |
| PyNemo.ElapsedSumAppend | var/ramble/repos/builtin/applications/py-nemo/application.py:633-646 | the elapsed sum is additive over the log's lines |
| PyNemo.LeadingDigits | var/ramble/repos/builtin/applications/py-nemo/application.py:366 | `[0-9]+` takes a prefix of digits |
| PyNemo.ReportReadBack | var/ramble/repos/builtin/applications/py-nemo/application.py:648-652 | the figure of merit reads back a non-negative sum written to `elapsed_seconds`, and nothing when the sum is negative |
| PyNemo.AllDigitsLead | var/ramble/repos/builtin/applications/py-nemo/application.py:366 | a run of digits is matched whole |
| PyNemo.PreprocessLog | var/ramble/repos/builtin/applications/py-nemo/application.py:607-652 | the phase computes the specified processed log and seconds file, nothing without a log, or the conversion error |
| PyNemo.PreprocessReport | var/ramble/repos/builtin/applications/py-nemo/application.py:615-652 | with the final-epoch pattern the phase succeeds on every log; the processed log is the cleaned log, split into lines without loss, and the seconds file reads back as the elapsed sum |
| NcclGib.DirnameOfChild | var/ramble/repos/builtin/modifiers/nccl-gib/modifier.py:54-55 | the directory of `dir/name` is `dir` |
| NcclGib.NcclEnvScriptPath | var/ramble/repos/builtin/modifiers/nccl-gib/modifier.py:27-28 | the script lives in `/usr/local/gib/scripts` |
| NcclGib.GibBlockShape | var/ramble/repos/builtin/modifiers/nccl-gib/modifier.py:56-83 | bash, sh, csh and fish get three lines: an `if` test, the source line and the shell's closing keyword; only the batch shell fails; any other shell gets nothing |
| NcclGib.GuardedCommandsShape | var/ramble/repos/builtin/modifiers/nccl-gib/modifier.py:53-85 | a guarded shell gets three lines per script, the k-th three being the k-th script's block |
| NcclGib.ConcatenatedShape | var/ramble/repos/builtin/modifiers/nccl-gib/modifier.py:53-85 | blocks of three lines each join into three lines per script, the k-th three being the k-th script's block |
| NcclGib.BatchShellFails | var/ramble/repos/builtin/modifiers/nccl-gib/modifier.py:80-83 | the batch shell stops the modifier as soon as there is a script |
| NcclGib.OtherShellGetsNothing | var/ramble/repos/builtin/modifiers/nccl-gib/modifier.py:56-85 | a shell none of the branches names gets no commands |
| NcclGib.SourceGib | var/ramble/repos/builtin/modifiers/nccl-gib/modifier.py:43-85 | the loop that extends the command list computes the specified commands |
| NcclGib.ExtendCommands | var/ramble/repos/builtin/modifiers/nccl-gib/modifier.py:53-85 | the loop that extends the commands script by script computes the joined blocks, or stops with the first error |
| NcclGib.ModifierUnderBash | var/ramble/repos/builtin/modifiers/nccl-gib/modifier.py:51-63 | under bash the modifier sources the script from `/usr/local/gib/scripts` inside a directory test |
| NcclGib.SocketExportNamesInterfaces | var/ramble/repos/builtin/modifiers/nccl-gib/modifier.py:37-41 | one command exports `NCCL_SOCKET_IFNAME` as the comma-separated list of the two interfaces |
| NcclGib.BuiltinsAreOrdered | var/ramble/repos/builtin/modifiers/nccl-gib/modifier.py:30-35 | both builtins are prepended and the socket override depends on the earlier source block |

## Left out

- The expander is not modelled. It appears as two functions: string expansion with or without passthrough, and typed expansion. Expansion, its errors and its `used` stages are not part of this model.
- File I/O, path canonicalisation and `get_file_path` are not modelled:
  - a base config that may be missing is an `Option` of its parsed dictionary;
  - Slurm's job file is a map from paths to contents;
  - a log that may be missing is an `Option` of its text;
  - the files the phases write are their results.
- YAML parsing, `yaml.dump` and the `${data_dir}` substitution in py-nemo's `_write_config` are left out. The model ends with the config dictionary.
- The config path built from `nemo_generated_config_path` and `nemo_generated_config_name` is left out.
- `apply_default_config_values` in `_write_config` is left out: its code is not part of this model.
- The implementation of `ramble.util.yaml_generation` is not part of this model. Its behaviour is taken from its tests:
  - a missing final key is created;
  - without `force`, a missing intermediate key makes `set_config_value` a no-op;
  - with `force`, missing intermediate keys are created;
  - a path through a non-dictionary value is left unchanged;
  - removing a key also removes parents it leaves empty;
  - getting a missing path gives null.
- The typed expansion of `nemo_remove_variables` is taken as the list of names it yields.
- The order of the application's variables is the `names` parameter of `PyNemo.WriteConfig`. The variable store is a map.
- The final-epoch regular expression of py-nemo is a function from a line to its `elapsed_time` group. `PyNemo.FinalEpochMatcher` keeps the one property of the pattern that the phase relies on: every group it gives is `[0-9]+:[0-9]+`. The phase's functions and methods accept any matcher, so a group `int()` rejects still yields the ValueError the code would raise.
- Reading the log as ISO-8859-1 and universal-newline translation on re-reading are not modelled. The log is a sequence of characters, and `readlines()` splits at `\n`.
- Logger warnings and debug messages are left out.
- HPL's floating-point steps are given by their results, as parameters of `Hpl.MemoryModel`:
  - the target size `int(math.sqrt(fullMemWords * memFraction))`;
  - the used percentage.
- Hpl.ApplySettings, Hpl.CalculateValues: one expander `e` expands every setting. It stands for the expander as it is after the standard defaults are defined. The model does not capture that a setting's expansion can see a setting the loop redefined earlier, or a default defined in the same phase. Settings are taken not to refer to one another.
- Hpl.MakeHplDat: when a setting fails to expand partway through, the model gives only the error. The source has by then already written the header and the earlier setting lines to HPL.dat. That partly written file is not modelled.
- YAML floating-point values are not modelled. They are left out of `Values.Value`, so neither `int()` truncating a float `model.ffn_hidden_size` nor floats in a py-nemo config or a variable are modelled.
- HPL's `_make_experiments` call to the parent phase and the HPL.dat file path are left out. The model produces the file's text.
- `ramble.config.get("config:shell")` and `shell_utils.source_str` are parameters of `NcclGib.SourceGib`.
- `logger.die` for the batch shell is an error result.
- How `register_builtin` injects commands is not part of this model. Only the declarations are.
- The `squeue` and `sacct` processes are a function from a command and its arguments to its output or a `ProcessError`.
- Slurm's templates and the `batch_*` scripts are left out.
- `WorkflowManagerBase.__str__` is modelled by `Describe` without a contract: it returns the name.
- Directive registration (`WorkflowManagerMeta`, `define_directive_methods`) is not modelled beyond running the directive.
- The remaining application, modifier, command and test files of the repository are not part of this model.
- Slurm.StatusNamed: `experiment_status` is defined in `ramble.application`, which is not part of this model. The model assumes it has exactly the members UNKNOWN, SETUP, RUNNING, COMPLETE and CANCELLED. The real enum may have more. `hasattr` is only ever asked about the names `_STATUS_MAP` yields, and all of those are among the five, so `Slurm.NormalizeStatus` does not depend on this assumption.
- Text.ParseInt: only the condition that the stripped text is non-empty is stated as its contract. The full accepted syntax is its definition: an optional sign and digits with single underscores.
- Text.ParseInt: only the ASCII digits `0`-`9` are accepted. Python's `int()` also accepts every other Unicode decimal digit, so `int("１２")` is 12. For such text the model differs from the source: `PyNemo.FfnHiddenSize` gives the fallback template where the source defines an int, and `Hpl.IntVariable` raises ValueError where the source computes a grid.
- PyNemo.Preprocess: when `int()` rejects a timestamp part, the model gives only the error. The source has by then already written the processed log. That written log is not modelled. No line that `PyNemo.FinalEpochMatcher` admits reaches this path.
