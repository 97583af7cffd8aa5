# pytables-to-json, modelled in Dafny

`pytables-to-json.py` converts legacy HDF5 state files into JSON state files.
It handles three state-file kinds: Treant, Group and Sim.

- For every path on its command line, it splits the basename into the three dot-separated parts `kind.uuid.ext`.
- A basename that does not split into exactly three parts raises, and the run ends. Of the names that do split, it skips any that is not `<Treant|Group|Sim>.<36 characters>.h5`.
- For a file it converts, it first writes an empty `{}` document to `kind.uuid.json` in the same directory.
- It then builds a legacy state-file object and a JSON target object, and copies the record across, one call after another:
  - tags, then categories;
  - for a Group, its members;
  - for a Sim, its universes, their selections and resnums, and finally the default universe.
- Each legacy getter runs inside a `_read` wrapper. The wrapper opens the HDF5 file, runs the getter and closes the handle, whether the getter returns or raises.

The model is organised as follows:

- `Base`: `Option`, `Result` and the exceptions the script can raise (`KeyError`, `IndexError`, `TypeError`, a `FieldError` for a structured array without the field, pytables' rejection of a where-condition that names no column, the `NoSuchNodeError` of a missing node, an unpacking `ValueError`, a failed `open_file`).
- `Text`: `str.split` and `str.join` on one separator character, with their round trips.
- `PosixPath`: `os.path.basename`, `dirname` and `join` for POSIX paths, and how they decompose a path.
- `Legacy`: the HDF5 file as an abstract record. Every pytables node is an `Option`, so a missing node is `None`. The getters of `TreantFileHDF5`, `GroupFileHDF5` and `SimFileHDF5` are pure functions over that record.
- `StateFile`: the class `LegacyStateFile`. Its `handle` field is assigned and closed by `Read` (the `_read` wrapper) and `Write` (the `_write` wrapper). `ScanMembers` is the loop of `get_member`. One method per getter runs the getter inside `Read`, except `GetMember`, which opens and closes the handle itself around `ScanMembers`, in the same way.
- `Migration`: what the copy does, as a trace of calls on the JSON target. The calls are `AddTags`, `AddCategories`, `AddMember(uuid, kind, abspath)`, `AddUniverse(name, top, trajs)`, `AddSelection`, `SetResnums` and `SetDefault`. The trace ends with the exception that stopped the copy, if any. The lemmas here state what is copied, in what order, and what is never copied.
- `Driver`: the name checks and the output name (`Classify`), one iteration of the main loop (`ConvertOne`) and the whole loop (`Batch`), as a sequence of events: skipped, empty output written, state objects built, a call issued, file finished. The imperative methods `ConvertFile`, `ConvertAll` and `Migrate*` do the same through a `LegacyStateFile`, and each is proved equal to its specification function.

Where the code and its prose description disagree, the model follows the code:

- Nothing in the main loop catches an exception, so a file that fails ends the whole run, not just that file. A basename without exactly two dots is also fatal: the tuple unpacking raises instead of skipping the file.
- The resnums call is made for every universe, with `None` when the universe has no resnums node.
- `_write` does not roll anything back. What the wrapped body wrote stays in the file even when the body raises.

## Model

| member | source | states |
|---|---|---|
| Text.SplitCount | pytables-to-json.py:473 | `Text.Split` models `str.split`: `split('.')` gives one more part than there are dots |
| Text.JoinSplit | pytables-to-json.py:473 | `Text.JoinWith` models `str.join`: joining the parts of a split with the separator gives back the string |
| Text.SplitJoin | pytables-to-json.py:483 | splitting a join of dot-free parts gives back the parts |
| Text.SplitKeepsOut | pytables-to-json.py:473 | a character absent from the string is absent from every part |
| PosixPath.Decompose | pytables-to-json.py:470-471 | `PosixPath.Basename` and `PosixPath.Dirname` model `os.path.basename` and `dirname`: a path is its dirname, then only slashes, then its basename |
| PosixPath.JoinBasename | pytables-to-json.py:483 | `PosixPath.Join` models `os.path.join`: the basename of `join(d, n)` is `n` when `n` holds no slash |
| PosixPath.JoinDirname | pytables-to-json.py:483 | the dirname of `join(d, n)` is `d` when `d` is a dirname and `n` holds no slash |
| PosixPath.DirnameShape | pytables-to-json.py:471 | every dirname is empty, all slashes, or ends in a character other than a slash |
| StateFile.LegacyStateFile.constructor | pytables-to-json.py:28-44 | a new state-file object has no handle yet |
| StateFile.LegacyStateFile.GetLocation | pytables-to-json.py:46-54 | the location is the prefix of the filename before the slashes that precede its basename, with those slashes dropped unless the prefix is slashes alone; `PosixPath.DirnameUnique` shows this pins it to `os.path.dirname` |
| PosixPath.DirnameUnique | pytables-to-json.py:54 | the dirname is the only prefix followed by slashes alone up to the basename that is either slashes alone reaching the basename or not ending in a slash |
| PosixPath.RStripUnique | pytables-to-json.py:54 | `rstrip('/')` is the only prefix that does not end in a slash and is followed by slashes alone |
| StateFile.LegacyStateFile.OpenFileR | pytables-to-json.py:148-149 | the handle is a freshly opened read handle when the open succeeds, and unchanged when it raises |
| StateFile.LegacyStateFile.CloseHandle | pytables-to-json.py:73-74 | only the open flag of the handle changes |
| StateFile.LegacyStateFile.Read | pytables-to-json.py:56-78 | the result is the body's result or exception, and the handle the call opened is closed afterwards |
| StateFile.LegacyStateFile.Write | pytables-to-json.py:80-100 | the file is created empty when missing; the body's changes to it persist even when it raises; the handle it opened is closed |
| StateFile.ScanMembers | pytables-to-json.py:226-236 | the loop over matching rows returns the field map of the last row with the uuid, `None` when no row matches, and a rejected where-condition without a uuid column |
| StateFile.LegacyStateFile.GetVersion | pytables-to-json.py:154-164 | version of the opened file, handle closed after |
| StateFile.LegacyStateFile.GetTags | pytables-to-json.py:166-175 | `get_tags` of the opened file, handle closed after |
| StateFile.LegacyStateFile.GetCategories | pytables-to-json.py:177-186 | `get_categories` of the opened file, handle closed after |
| StateFile.LegacyStateFile.GetMember | pytables-to-json.py:210-236 | `get_member` of the opened file, through its loop, handle closed after |
| StateFile.LegacyStateFile.GetMembers | pytables-to-json.py:238-251 | the members table of the opened file, handle closed after |
| StateFile.LegacyStateFile.GetMembersUuid | pytables-to-json.py:253-262 | the uuid column of the opened file, handle closed after |
| StateFile.LegacyStateFile.GetMembersTreanttype | pytables-to-json.py:264-273 | the treanttype column of the opened file, handle closed after |
| StateFile.LegacyStateFile.GetMembersBasedir | pytables-to-json.py:275-284 | the (abspath, relCont) pairs of the opened file, handle closed after |
| StateFile.LegacyStateFile.GetMdsVersion | pytables-to-json.py:307-317 | mdsynthesis version of the opened file, handle closed after |
| StateFile.LegacyStateFile.GetDefault | pytables-to-json.py:319-335 | `get_default` of the opened file, handle closed after |
| StateFile.LegacyStateFile.ListUniverses | pytables-to-json.py:337-348 | universe names of the opened file, handle closed after |
| StateFile.LegacyStateFile.GetUniverse | pytables-to-json.py:350-383 | `get_universe` of the opened file, handle closed after |
| StateFile.LegacyStateFile.GetResnums | pytables-to-json.py:385-405 | `get_resnums` of the opened file, handle closed after |
| StateFile.LegacyStateFile.ListSelections | pytables-to-json.py:407-428 | `list_selections` of the opened file, handle closed after |
| StateFile.LegacyStateFile.GetSelection | pytables-to-json.py:430-452 | `get_selection` of the opened file, handle closed after |
| Legacy.VersionRoundTrip | pytables-to-json.py:154-164 | `Legacy.GetVersion` and `Legacy.GetMdsVersion` (lines 307-317), over `Legacy.FirstRow`: the first stored row reads back; an empty table raises `IndexError`, a missing one `NoSuchNodeError` |
| Legacy.CategoriesFromRows | pytables-to-json.py:177-186 | `Legacy.GetCategories`: one key per stored category, mapped to the value of its last row; a missing node raises |
| Legacy.CategoryMap | pytables-to-json.py:185-186 | the keys are exactly the stored category names |
| Legacy.CategoryLastWins | pytables-to-json.py:185-186 | for a repeated category the value of its last row wins |
| Legacy.LastMatch | pytables-to-json.py:229-231 | the index of the last row whose key column matches, `None` exactly when none matches |
| Legacy.RowMap | pytables-to-json.py:233-234 | the keys are the table's column names and each maps to the row's field |
| Legacy.MemberIsLastRow | pytables-to-json.py:226-236 | `Legacy.GetMember` and `Legacy.MemberInTable` model `get_member`: `get_member` returns the field map of the last row with the uuid, keyed by exactly the column names |
| Legacy.MemberAbsent | pytables-to-json.py:226-236 | `get_member` returns `None` when no row has the uuid |
| Legacy.ColumnIsField | pytables-to-json.py:253-273 | `Legacy.Column`, behind `Legacy.GetMembersUuid` and `Legacy.GetMembersTreanttype`: one entry per stored row, in order, equal to that row's field as `get_member` returns it; a missing column is a `FieldError` |
| Legacy.BasedirRows | pytables-to-json.py:275-284 | `Legacy.GetMembersBasedir`: one (abspath, relCont) pair per stored member, in order, equal to that member's fields; a missing node or column raises |
| Legacy.DefaultSentinel | pytables-to-json.py:329-335 | `Legacy.GetDefault` models `get_default` over `Legacy.FirstRow`: the stored `"None"` reads as absent, and any other stored string is returned unchanged |
| Legacy.DefaultRoundTrip | pytables-to-json.py:329-335 | storing a default and reading it back gives the same default, for every default except a universe named `None`, which reads back as no default |
| Legacy.ListedIffFound | pytables-to-json.py:337-348 | `Legacy.Names`, the `__members__` listing behind `Legacy.ListUniverses` and `Legacy.ListSelections`, lists a name exactly when `Legacy.Find` finds a child by that name |
| Legacy.Find | pytables-to-json.py:441-452 | `get_node` finds nothing exactly when no child has the name |
| Legacy.FindListed | pytables-to-json.py:446-447 | with distinct names, every listed child is found under its own name |
| Legacy.MissingNodes | pytables-to-json.py:350-452 | `Legacy.GetUniverse`, `Legacy.GetResnums`, `Legacy.ListSelections` and `Legacy.GetSelection` model the universe getters: missing universe, topology, trajectory, selections group or selection within it: `KeyError` with the script's message; missing resnums: `None` |
| Legacy.ResnumsNeverFail | pytables-to-json.py:398-405 | `get_resnums` never raises, and gives the stored resnums, in stored order, exactly when the universe and its resnums exist |
| Migration.Collect | pytables-to-json.py:496-517 | a loop of calls up to the first exception: the calls are the leading successes, and the failure is the first error |
| Migration.SequencedStop | pytables-to-json.py:506-520 | once a universe raises, later universes are not reached |
| Migration.TagsThenCategories | pytables-to-json.py:492-493 | `Migration.MigrationRun` is the copy for one kind, over `Legacy.GetTags` and `Legacy.GetCategories`: every kind copies tags first and categories second; a file that cannot be opened issues nothing |
| Migration.TreantCopiesOnlyGeneric | pytables-to-json.py:491-493 | `Migration.TreantRun`: a Treant issues exactly those two calls |
| Migration.MemberRowOf | pytables-to-json.py:229-231 | the row `get_member` uses for a stored uuid is the last row with that uuid |
| Migration.GroupCopiesMembers | pytables-to-json.py:496-501 | `Migration.GroupRun`, `Migration.MemberSteps` and `Migration.MemberStep` model the member loop over `Legacy.GetMembersUuid`: a Group issues one `AddMember(uuid, treanttype, abspath)` per stored uuid in storage order, taken from the last row with that uuid |
| Migration.RelContNeverCopied | pytables-to-json.py:496-501 | changing only the relCont column does not change what a Group issues |
| Migration.GroupRunAgree | pytables-to-json.py:496-501 | two members tables with the same columns and rows that differ only in the relCont column give the same member loop |
| Migration.RepeatedUuidCopiedAlike | pytables-to-json.py:496-501 | rows sharing a uuid, anywhere in the table, give the same member call, one call per stored row |
| Migration.UniverseBlock | pytables-to-json.py:507-520 | `Migration.UniverseRun` and `Migration.Abspaths` model one universe: a universe issues add-universe with its first topology abspath and all trajectory abspaths, one add-selection per listed selection, then resnums (`None` when absent) |
| Migration.SelectionsCopied | pytables-to-json.py:515-517 | `Migration.SelectionsRun` and `Migration.SelectionSteps` model the selection loop: with distinct names, every selection converts and carries the stored array, in listing order |
| Migration.SelectionsOnlyAdd | pytables-to-json.py:515-517 | the selection loop issues only add-selection calls |
| Migration.UniversesNoDefault | pytables-to-json.py:506-520 | the universe loop never sets the default |
| Migration.DefaultSetOnceLast | pytables-to-json.py:505-523 | `Migration.SimRun`: a Sim that converts sets the default exactly once, as its last call, to what `get_default` returns |
| Migration.UniverseAddsItself | pytables-to-json.py:507-510 | a converting universe adds itself and no other universe |
| Migration.UniversesInOrder | pytables-to-json.py:506-510 | `Migration.UniversesRun` and `Migration.UniverseBlocks` model the universe loop: the universe loop adds the listed universes in listing order |
| Migration.UniversesAddedInListingOrder | pytables-to-json.py:505-523 | `Migration.SimRun` models the Sim part over `Legacy.ListUniverses` and `Legacy.Names`: a Sim that converts adds exactly the listed universes, in listing order |
| Driver.ClassifyCases | pytables-to-json.py:470-479 | `Driver.Classify` models the checks: unpacking fails exactly when the basename has other than two dots; a file converts exactly when it is kind.uuid.h5 with a known kind and a 36-character uuid; otherwise it is skipped |
| Driver.OutputNaming | pytables-to-json.py:483 | `Driver.OutputName` models the output name: the output is in the input's directory and named kind.uuid.json |
| Driver.OutputNameHasNoSlash | pytables-to-json.py:473-483 | kind and uuid hold no dot, and the output name holds no slash |
| Driver.OutputNameSplits | pytables-to-json.py:483 | an output name splits back into kind, uuid and json |
| Driver.OutputNotAnInput | pytables-to-json.py:476-483 | the output name splits back into its parts, so given as input it is skipped |
| Driver.JsonIsSkipped | pytables-to-json.py:476-479 | a name with a json extension is skipped |
| Driver.SkippedNotWritten | pytables-to-json.py:476-479 | `Driver.ConvertOne` models one iteration: a skipped file shows its skip and writes nothing |
| Driver.UnpackAborts | pytables-to-json.py:473 | a name that does not unpack raises before anything is written |
| Driver.EmptyOutputFirst | pytables-to-json.py:483-489 | `Driver.ConvertOne`: the empty output is written first and only once, and the state objects are built after it; with Sim left out of `mapping` (lines 454-459), the empty file is all that remains |
| Driver.IssueAppend | pytables-to-json.py:492-523 | issuing calls in two batches shows the same events as issuing them at once |
| Driver.ConversionShape | pytables-to-json.py:485-525 | `Driver.Conversion` models the body after the checks: for any issued calls, the empty output is written first and never again |
| Driver.ConvertedShape | pytables-to-json.py:485-527 | a file that converts shows: empty output, build, its calls, completion |
| Driver.ChainAbort | pytables-to-json.py:469 | after an exception no later iteration runs |
| Driver.ChainAppend | pytables-to-json.py:469 | iterations that go through are followed by the rest's events |
| Driver.ChainCompletes | pytables-to-json.py:469 | the loop completes exactly when no iteration raises |
| Driver.AbortIsFinal | pytables-to-json.py:469-527 | after one file raises, adding files to the command line changes nothing |
| Driver.BatchAppend | pytables-to-json.py:469-527 | a batch that went through is followed by the events of the next files |
| Driver.BatchCompletes | pytables-to-json.py:469-527 | `Driver.Batch` models the main loop: the run completes exactly when no file raises |
| Driver.GroupExample | pytables-to-json.py:492-501 | a concrete Group with a repeated uuid and a repeated category: the last category value and the last member row are copied, the member twice |
| Driver.MigrateTreant | pytables-to-json.py:492-493 | the calls equal the Treant trace of the opened file; no handle is left open |
| Driver.MigrateMember | pytables-to-json.py:498-501 | one member step: `TypeError` for an unknown uuid, `KeyError` for a missing field |
| Driver.MigrateMembers | pytables-to-json.py:496-501 | the member loop's calls equal the Group trace |
| Driver.MigrateSelections | pytables-to-json.py:515-517 | the selection loop's calls equal its trace |
| Driver.MigrateUniverse | pytables-to-json.py:507-520 | one universe's calls equal its block |
| Driver.MigrateUniverses | pytables-to-json.py:506-520 | the universe loop's calls equal the sequenced blocks |
| Driver.MigrateSim | pytables-to-json.py:505-523 | the Sim part's calls equal the Sim trace |
| Driver.Migrate | pytables-to-json.py:491-523 | the calls for one file equal the trace for its kind |
| Driver.BuildAndMigrate | pytables-to-json.py:488-523 | a fresh state-file object on the path issues the trace of the opened file |
| Driver.CopyFile | pytables-to-json.py:485-527 | the events from the empty output on equal their specification |
| Driver.ConvertFile | pytables-to-json.py:470-527 | one iteration's events and exception equal `ConvertOne` |
| Driver.ConvertAll | pytables-to-json.py:469-527 | the loop's events and exception equal `Batch` |

## Left out

- pytables is not modelled: `open_file`, `get_node`, the `where` query string and its quoting, `NoSuchNodeError` internals and numpy structured arrays. A file is an abstract record, and each node is an optional sequence of rows.
- The datreant `Treant`/`Group` and mdsynthesis `Sim` targets are not modelled. Their logic (tag deduplication, relative paths, default validation) is not in this script, so the target is only the trace of calls made on it. Exceptions raised inside those calls are therefore not modelled either.
- `json.dump`, `open(jsonfile, 'w')`, `print`, `argparse` and `warnings.filterwarnings` are I/O. Writing the empty document is the `WroteEmpty` event, and messages are the `Skipped` and `Converted` events.
- `os.path.abspath` (line 43) depends on the working directory. The model keys files by the path as given.
- Locking and concurrency: the `fcntl` import (line 12) is unused, and the code has no lock protocol.
- The debugging helpers `_open_r`, `_open_w` and `_close` (lines 102-124) are not modelled.
- Registering `Sim` in `mapping` depends on an import (lines 454-459). It is a boolean parameter.
- The expression `json_state.universes[uname]` (line 512) has an effect only inside mdsynthesis, so it is not modelled.
- `if memberinfo:` is Python truthiness, and a matched row is taken to be true. A matched row that numpy finds false is returned as the raw row, not as a dict; its fields read the same, so the copy is unchanged.
- `len(uuid)` counts characters in the model. Under Python 2, a byte string counts bytes.
- StateFile.LegacyStateFile.Write: it does not model a failing `open_file` in append mode, such as a read-only directory.
- StateFile.LegacyStateFile.GetLocation: is the dirname of the path as given, not of its absolute form.
- The exact exception class pytables raises for a where-condition that names no column of the members table is not modelled; it is the `QueryError` outcome.
