/** The conversion script's main loop: for each state file named on the
    command line, decide from its name whether to convert it, write the
    empty JSON file, build the two state objects and copy the record. An
    exception is not caught anywhere in the loop, so it ends the whole run. */
module Driver {
  import opened Base
  import opened Legacy
  import opened Migration
  import Text
  import PosixPath
  import StateFile

  /** The kinds the script converts. */
  const Kinds: seq<string> := ["Treant", "Group", "Sim"]

  /** What the name of one state file decides. */
  datatype Decision =
    | Unpack(parts: nat)                                     // split('.') did not give three parts
    | Skip                                                   // "Unknown file ...; skipping"
    | Convert(kind: string, uuid: string, jsonfile: string)  // converted into jsonfile

  /** '.'.join((treanttype, uuid, 'json')). */
  function OutputName(kind: string, uuid: string): string
  {
    Text.JoinWith([kind, uuid, "json"], '.')
  }

  /** The checks on the basename, and the output path beside the input. */
  function Classify(sf: string): Decision
  {
    var parts := Text.Split(PosixPath.Basename(sf), '.');
    if |parts| != 3 then Unpack(|parts|)
    else if parts[0] !in Kinds || parts[2] != "h5" || |parts[1]| != 36 then Skip
    else Convert(parts[0], parts[1], PosixPath.Join(PosixPath.Dirname(sf), OutputName(parts[0], parts[1])))
  }

  /** Unpacking fails exactly when the basename does not hold two dots; a
      file converts exactly when it is <kind>.<36 characters>.h5 with a known
      kind; every other name is skipped. */
  lemma ClassifyCases(sf: string)
    ensures var base := PosixPath.Basename(sf);
      Classify(sf).Unpack? <==> Text.Count(base, '.') != 2
    ensures var parts := Text.Split(PosixPath.Basename(sf), '.');
      Classify(sf).Convert? <==>
        |parts| == 3 && parts[0] in Kinds && parts[2] == "h5" && |parts[1]| == 36
    ensures var parts := Text.Split(PosixPath.Basename(sf), '.');
      Classify(sf).Skip? <==>
        |parts| == 3 && !(parts[0] in Kinds && parts[2] == "h5" && |parts[1]| == 36)
    ensures Classify(sf).Convert? ==>
      Text.JoinWith([Classify(sf).kind, Classify(sf).uuid, "h5"], '.') == PosixPath.Basename(sf)
  {
    var base := PosixPath.Basename(sf);
    var parts := Text.Split(base, '.');
    Text.SplitCount(base, '.');
    Text.JoinSplit(base, '.');
    if |parts| == 3 {
      assert parts == [parts[0], parts[1], parts[2]];
      assert Text.JoinWith(parts[2..], '.') == parts[2];
    }
  }

  /** The output file lies in the input's directory and is named
      <kind>.<uuid>.json. */
  lemma OutputNaming(sf: string)
    requires Classify(sf).Convert?
    ensures var d := Classify(sf);
      && PosixPath.Dirname(d.jsonfile) == PosixPath.Dirname(sf)
      && PosixPath.Basename(d.jsonfile) == OutputName(d.kind, d.uuid)
  {
    var d := Classify(sf);
    var name := OutputName(d.kind, d.uuid);
    OutputNameHasNoSlash(sf);
    PosixPath.DirnameShape(sf);
    PosixPath.JoinBasename(PosixPath.Dirname(sf), name);
    PosixPath.JoinDirname(PosixPath.Dirname(sf), name);
  }

  /** The pieces of the output name come from the input's basename, which
      holds no '/'. */
  lemma OutputNameHasNoSlash(sf: string)
    requires Classify(sf).Convert?
    ensures var d := Classify(sf);
      && '.' !in d.kind && '.' !in d.uuid
      && '/' !in OutputName(d.kind, d.uuid)
  {
    var d := Classify(sf);
    var base := PosixPath.Basename(sf);
    assert '/' !in base;
    Text.SplitKeepsOut(base, '.', '/');
    assert Text.JoinWith([d.uuid, "json"], '.') == d.uuid + ['.'] + "json";
    assert OutputName(d.kind, d.uuid) == d.kind + ['.'] + (d.uuid + ['.'] + "json");
  }

  /** The output name splits back into its kind and uuid, so the output is
      never taken for a state file: given as input, it would be skipped. */
  lemma OutputNotAnInput(sf: string)
    requires Classify(sf).Convert?
    ensures var d := Classify(sf);
      && Text.Split(PosixPath.Basename(d.jsonfile), '.') == [d.kind, d.uuid, "json"]
      && Classify(d.jsonfile) == Skip
  {
    var d := Classify(sf);
    var name := OutputName(d.kind, d.uuid);
    OutputNaming(sf);
    OutputNameHasNoSlash(sf);
    assert PosixPath.Basename(d.jsonfile) == name;
    OutputNameSplits(d.kind, d.uuid);
    JsonIsSkipped(d.jsonfile, d.kind, d.uuid);
  }

  /** An output name splits back into its kind and uuid. */
  lemma OutputNameSplits(kind: string, uuid: string)
    requires '.' !in kind && '.' !in uuid
    ensures Text.Split(OutputName(kind, uuid), '.') == [kind, uuid, "json"]
  {
    Text.SplitJoin([kind, uuid, "json"], '.');
  }

  /** A name whose extension is json is skipped. */
  lemma JsonIsSkipped(out: string, kind: string, uuid: string)
    requires Text.Split(PosixPath.Basename(out), '.') == [kind, uuid, "json"]
    ensures Classify(out) == Skip
  {
  }

  /** What the run shows and writes, in order. */
  datatype Event =
    | Skipped(statefile: string)                                // "Unknown file ...; skipping"
    | WroteEmpty(jsonfile: string)                              // json.dump({}, open(jsonfile, 'w'))
    | Built(kind: string, statefile: string, jsonfile: string)  // h5_state and json_state constructed
    | Issued(call: Call)                                        // a call on json_state
    | Converted(statefile: string)                              // "Finished converting ..."

  /** The events so far, and the exception that ended the run, if any. */
  datatype Step = Step(events: seq<Event>, failure: Option<Error>)

  /** The events of a sequence of calls on json_state, one per call. */
  function Issue(calls: seq<Call>): seq<Event>
  {
    seq(|calls|, i requires 0 <= i < |calls| => Issued(calls[i]))
  }

  /** Issuing calls in two batches shows the same events as issuing them at once. */
  lemma IssueAppend(a: seq<Call>, b: seq<Call>)
    ensures Issue(a + b) == Issue(a) + Issue(b)
  {
    assert forall i :: |a| <= i < |a + b| ==> (a + b)[i] == b[i - |a|];
  }

  /** One iteration of the main loop; simAvailable says whether Sim is in
      mapping, which depends on whether mdsynthesis could be imported. */
  function ConvertOne(sf: string, files: map<string, Record>, simAvailable: bool): Step
  {
    match Classify(sf)
    case Unpack(n) => Step([], Some(UnpackError(n)))
    case Skip => Step([Skipped(sf)], None)
    case Convert(kind, _, out) => Conversion(sf, kind, out, MigrationRun(kind, Open(files, sf)), simAvailable)
  }

  /** The body of the main loop for a file that passed the checks: write the
      empty output, look the kind up in mapping, build both state objects and
      copy, which issues run. */
  function Conversion(sf: string, kind: string, out: string, run: Run, simAvailable: bool): Step
  {
    if kind == "Sim" && !simAvailable then Step([WroteEmpty(out)], Some(KeyError("Sim")))
    else
      var evs := [WroteEmpty(out), Built(kind, sf, out)] + Issue(run.calls);
      if run.failure.Some? then Step(evs, run.failure) else Step(evs + [Converted(sf)], None)
  }

  /** A loop whose iterations are not protected by try/except: the events
      of each iteration in turn, up to and including the first that raises. */
  function Chain(steps: seq<Step>): Step
    decreases |steps|
  {
    if |steps| == 0 then Step([], None)
    else
      var before := Chain(steps[..|steps| - 1]);
      if before.failure.Some? then before
      else Step(before.events + steps[|steps| - 1].events, steps[|steps| - 1].failure)
  }

  /** The loop body one applied to each state file, in command-line order. */
  function Each(sfs: seq<string>, one: string -> Step): (steps: seq<Step>)
    ensures |steps| == |sfs| && forall i :: 0 <= i < |sfs| ==> steps[i] == one(sfs[i])
    decreases |sfs|
  {
    if |sfs| == 0 then [] else Each(sfs[..|sfs| - 1], one) + [one(sfs[|sfs| - 1])]
  }

  /** The body of the main loop, for a given disk and mapping. */
  function Converter(files: map<string, Record>, simAvailable: bool): string -> Step
  {
    sf => ConvertOne(sf, files, simAvailable)
  }

  /** The main loop over the state files. */
  function Batch(sfs: seq<string>, files: map<string, Record>, simAvailable: bool): Step
  {
    Chain(Each(sfs, Converter(files, simAvailable)))
  }

  /** A skipped file shows its skip and nothing else: no output is written. */
  lemma SkippedNotWritten(sf: string, files: map<string, Record>, simAvailable: bool)
    requires Classify(sf).Skip?
    ensures ConvertOne(sf, files, simAvailable) == Step([Skipped(sf)], None)
  {
  }

  /** A name that does not unpack ends the run before anything is written. */
  lemma UnpackAborts(sf: string, files: map<string, Record>, simAvailable: bool)
    requires Classify(sf).Unpack?
    ensures ConvertOne(sf, files, simAvailable) == Step([], Some(UnpackError(|Text.Split(PosixPath.Basename(sf), '.')|)))
  {
  }

  /** A converted file is first written empty; only then are the state
      objects built and the calls issued. If Sim is not in mapping, the
      empty file is all that is left behind. */
  lemma EmptyOutputFirst(sf: string, files: map<string, Record>, simAvailable: bool)
    requires Classify(sf).Convert?
    ensures var d := Classify(sf);
      var step := ConvertOne(sf, files, simAvailable);
      && |step.events| >= 1
      && step.events[0] == WroteEmpty(d.jsonfile)
      && (forall i :: 1 <= i < |step.events| ==> !step.events[i].WroteEmpty?)
      && (d.kind == "Sim" && !simAvailable ==> step == Step([WroteEmpty(d.jsonfile)], Some(KeyError("Sim"))))
      && (d.kind != "Sim" || simAvailable ==>
            |step.events| >= 2 && step.events[1] == Built(d.kind, sf, d.jsonfile))
  {
    var d := Classify(sf);
    ConversionShape(sf, d.kind, d.jsonfile, MigrationRun(d.kind, Open(files, sf)), simAvailable);
  }

  /** For any calls it issues, a conversion writes the empty output first and
      never again, and builds the state objects right after it. */
  lemma ConversionShape(sf: string, kind: string, out: string, run: Run, simAvailable: bool)
    ensures var step := Conversion(sf, kind, out, run, simAvailable);
      && |step.events| >= 1
      && step.events[0] == WroteEmpty(out)
      && (forall i :: 1 <= i < |step.events| ==> !step.events[i].WroteEmpty?)
      && (kind == "Sim" && !simAvailable ==> step == Step([WroteEmpty(out)], Some(KeyError("Sim"))))
      && (kind != "Sim" || simAvailable ==> |step.events| >= 2 && step.events[1] == Built(kind, sf, out))
  {
    if kind != "Sim" || simAvailable {
      var evs := [WroteEmpty(out), Built(kind, sf, out)] + Issue(run.calls);
      assert forall i :: 2 <= i < |evs| ==> evs[i] == Issued(run.calls[i - 2]);
      if run.failure.None? {
        var done := evs + [Converted(sf)];
        assert forall i :: 0 <= i < |evs| ==> done[i] == evs[i];
      }
    }
  }

  /** A converted file that converts ends with its completion, after its calls. */
  lemma ConvertedShape(sf: string, files: map<string, Record>, simAvailable: bool)
    requires Classify(sf).Convert?
    requires ConvertOne(sf, files, simAvailable).failure.None?
    ensures var d := Classify(sf);
      var run := MigrationRun(d.kind, Open(files, sf));
      ConvertOne(sf, files, simAvailable).events
        == [WroteEmpty(d.jsonfile), Built(d.kind, sf, d.jsonfile)] + Issue(run.calls) + [Converted(sf)]
  {
  }

  /** After an exception nothing more happens: later steps are not reached. */
  lemma {:induction false} ChainAbort(steps: seq<Step>, more: seq<Step>)
    requires Chain(steps).failure.Some?
    ensures Chain(steps + more) == Chain(steps)
    decreases |more|
  {
    if |more| == 0 {
      assert steps + more == steps;
    } else {
      assert (steps + more)[..|steps + more| - 1] == steps + more[..|more| - 1];
      ChainAbort(steps, more[..|more| - 1]);
    }
  }

  /** One more step after a prefix that went through. */
  lemma ChainNext(steps: seq<Step>, i: nat)
    requires i < |steps| && Chain(steps[..i]).failure.None?
    ensures Chain(steps[..i + 1]) == Step(Chain(steps[..i]).events + steps[i].events, steps[i].failure)
  {
    assert steps[..i + 1][..i] == steps[..i];
  }

  /** A prefix that raised is the whole chain. */
  lemma ChainStop(steps: seq<Step>, n: nat)
    requires n <= |steps| && Chain(steps[..n]).failure.Some?
    ensures Chain(steps) == Chain(steps[..n])
  {
    ChainAbort(steps[..n], steps[n..]);
    assert steps[..n] + steps[n..] == steps;
  }

  /** Steps that go through leave the rest unaffected: the chain over a
      concatenation is the two chains one after the other. */
  lemma {:induction false} ChainAppend(steps: seq<Step>, more: seq<Step>)
    requires Chain(steps).failure.None?
    ensures Chain(steps + more)
         == Step(Chain(steps).events + Chain(more).events, Chain(more).failure)
    decreases |more|
  {
    if |more| == 0 {
      assert steps + more == steps;
    } else {
      var init := more[..|more| - 1];
      assert (steps + more)[..|steps + more| - 1] == steps + init;
      ChainAppend(steps, init);
      if Chain(init).failure.None? {
        assert (steps + more)[|steps + more| - 1] == more[|more| - 1];
      }
    }
  }

  /** The chain completes exactly when no step raises. */
  lemma {:induction false} ChainCompletes(steps: seq<Step>)
    ensures Chain(steps).failure.None? <==> forall i :: 0 <= i < |steps| ==> steps[i].failure.None?
    decreases |steps|
  {
    if |steps| > 0 {
      var init := steps[..|steps| - 1];
      ChainCompletes(init);
      assert forall i :: 0 <= i < |init| ==> init[i] == steps[i];
    }
  }

  /** The per-file steps of a batch split like its file list. */
  lemma {:induction false} EachAppend(sfs: seq<string>, more: seq<string>, one: string -> Step)
    ensures Each(sfs + more, one) == Each(sfs, one) + Each(more, one)
    decreases |more|
  {
    if |more| == 0 {
      assert sfs + more == sfs;
    } else {
      var init := more[..|more| - 1];
      assert (sfs + more)[..|sfs + more| - 1] == sfs + init;
      EachAppend(sfs, init, one);
    }
  }

  /** After an exception no later file is looked at. */
  lemma AbortIsFinal(sfs: seq<string>, more: seq<string>, files: map<string, Record>, simAvailable: bool)
    requires Batch(sfs, files, simAvailable).failure.Some?
    ensures Batch(sfs + more, files, simAvailable) == Batch(sfs, files, simAvailable)
  {
    var one := Converter(files, simAvailable);
    EachAppend(sfs, more, one);
    ChainAbort(Each(sfs, one), Each(more, one));
  }

  /** A batch that went through is followed by the next files' own run. */
  lemma BatchAppend(sfs: seq<string>, more: seq<string>, files: map<string, Record>, simAvailable: bool)
    requires Batch(sfs, files, simAvailable).failure.None?
    ensures Batch(sfs + more, files, simAvailable)
         == Step(Batch(sfs, files, simAvailable).events + Batch(more, files, simAvailable).events,
                 Batch(more, files, simAvailable).failure)
  {
    var one := Converter(files, simAvailable);
    EachAppend(sfs, more, one);
    ChainAppend(Each(sfs, one), Each(more, one));
  }

  /** The run completes exactly when no file raises. */
  lemma BatchCompletes(sfs: seq<string>, files: map<string, Record>, simAvailable: bool)
    ensures Batch(sfs, files, simAvailable).failure.None?
        <==> forall i :: 0 <= i < |sfs| ==> ConvertOne(sfs[i], files, simAvailable).failure.None?
  {
    var steps := Each(sfs, Converter(files, simAvailable));
    ChainCompletes(steps);
    assert forall i :: 0 <= i < |sfs| ==> steps[i] == ConvertOne(sfs[i], files, simAvailable);
  }

  /** The members table of the example group: one uuid listed twice. */
  const ExampleMembers: Table := TableData(["uuid", "treanttype", "abspath"],
                                           [["u1", "Treant", "/a/"], ["u1", "Sim", "/b/"]])

  /** The example group: one tag, a category stored twice, and those members. */
  const ExampleGroup: Record := Record(None, Some(["x"]), Some([Category("k", "1"), Category("k", "2")]),
                                       Some(ExampleMembers), None, None, None)

  lemma ExampleTreant()
    ensures TreantRun(Ok(ExampleGroup)) == Run([AddTags(["x"]), AddCategories(map["k" := "2"])], None)
  {
    var cats := [Category("k", "1"), Category("k", "2")];
    assert cats[..1][..0] == [];
    assert CategoryMap(cats) == map["k" := "2"];
  }

  lemma ExampleMemberStep()
    ensures MemberStep(Ok(ExampleGroup), "u1") == Ok(AddMember("u1", "Sim", "/b/"))
  {
    var t := ExampleMembers;
    assert ColumnIndex(t.columns, "uuid") == 0;
    MemberIsLastRow(t, "u1", 1);
    assert ColumnIndex(t.columns, "treanttype") == 1;
    assert ColumnIndex(t.columns, "abspath") == 2;
  }

  lemma ExampleUuids()
    ensures GetMembersUuid(ExampleGroup) == Ok(["u1", "u1"])
  {
    var t := ExampleMembers;
    assert "uuid" in t.columns && ColumnIndex(t.columns, "uuid") == 0;
    var us := Column(t, "uuid").value;
    assert us[0] == "u1" && us[1] == "u1";
    assert us == ["u1", "u1"];
  }

  lemma MembersTwice(src: Result<Record>, u: string, c: Call)
    requires MemberStep(src, u) == Ok(c)
    ensures MembersRun(src, [u, u]) == Run([c, c], None)
  {
    var steps := MemberSteps(src, [u, u]);
    assert steps == [Ok(c), Ok(c)];
    CollectAllOk(steps, [c, c]);
  }

  lemma ExampleMembersCopied()
    ensures GroupRun(Ok(ExampleGroup)) == Run([AddMember("u1", "Sim", "/b/"), AddMember("u1", "Sim", "/b/")], None)
  {
    ExampleUuids();
    ExampleMemberStep();
    assert GroupRun(Ok(ExampleGroup)) == MembersRun(Ok(ExampleGroup), ["u1", "u1"]);
    MembersTwice(Ok(ExampleGroup), "u1", AddMember("u1", "Sim", "/b/"));
  }

  /** In the example group both iterations of the member loop copy the last
      row with the repeated uuid, and the repeated category keeps its last
      value. */
  lemma GroupExample()
    ensures MigrationRun("Group", Ok(ExampleGroup)).calls
        == [AddTags(["x"]), AddCategories(map["k" := "2"]),
            AddMember("u1", "Sim", "/b/"), AddMember("u1", "Sim", "/b/")]
  {
    ExampleTreant();
    ExampleMembersCopied();
  }

  // ---------------------------------------------------------------------
  // The loop itself, on a state file object

  /** Tags, then categories. */
  method MigrateTreant(h5: StateFile.LegacyStateFile) returns (run: Run)
    modifies h5
    ensures run == TreantRun(h5.Loaded())
    ensures old(h5.Idle()) ==> h5.Idle()
  {
    var tags := h5.GetTags();
    if tags.Err? {
      return Run([], Some(tags.error));
    }
    var cats := h5.GetCategories();
    if cats.Err? {
      return Run([AddTags(tags.value)], Some(cats.error));
    }
    run := Run([AddTags(tags.value), AddCategories(cats.value)], None);
  }

  /** memberdict = get_member(m_uuid), then the call made with it. */
  method MigrateMember(h5: StateFile.LegacyStateFile, u: string) returns (step: Result<Call>)
    modifies h5
    ensures step == MemberStep(h5.Loaded(), u)
    ensures old(h5.Idle()) ==> h5.Idle()
  {
    var memberdict := h5.GetMember(u);
    if memberdict.Err? {
      step := Err(memberdict.error);
    } else if memberdict.value.None? {
      step := Err(TypeError);
    } else if "treanttype" !in memberdict.value.value {
      step := Err(KeyError("treanttype"));
    } else if "abspath" !in memberdict.value.value {
      step := Err(KeyError("abspath"));
    } else {
      var m := memberdict.value.value;
      step := Ok(AddMember(u, m["treanttype"], m["abspath"]));
    }
  }

  /** for m_uuid in get_members_uuid(): _add_member(m_uuid, treanttype, abspath). */
  method MigrateMembers(h5: StateFile.LegacyStateFile) returns (run: Run)
    modifies h5
    ensures run == GroupRun(h5.Loaded())
    ensures old(h5.Idle()) ==> h5.Idle()
  {
    var uuids := h5.GetMembersUuid();
    if uuids.Err? {
      return Run([], Some(uuids.error));
    }
    var us := uuids.value;
    ghost var steps := MemberSteps(h5.Loaded(), us);
    var calls := [];
    var i := 0;
    while i < |us|
      invariant 0 <= i <= |us|
      invariant Collect(steps[..i]) == Run(calls, None)
      invariant old(h5.Idle()) ==> h5.Idle()
    {
      var step := MigrateMember(h5, us[i]);
      if step.Err? {
        CollectStopsAt(steps, calls);
        return Run(calls, Some(step.error));
      }
      CollectNext(steps, calls, i);
      calls := calls + [step.value];
      i := i + 1;
    }
    assert steps[..i] == steps;
    run := Run(calls, None);
  }

  /** for selname in list_selections(uname): selections.add(selname, *sel). */
  method MigrateSelections(h5: StateFile.LegacyStateFile, u: string, hs: seq<string>) returns (run: Run)
    modifies h5
    ensures run == SelectionsRun(h5.Loaded(), u, hs)
    ensures old(h5.Idle()) ==> h5.Idle()
  {
    ghost var steps := SelectionSteps(h5.Loaded(), u, hs);
    var calls := [];
    var i := 0;
    while i < |hs|
      invariant 0 <= i <= |hs|
      invariant Collect(steps[..i]) == Run(calls, None)
      invariant old(h5.Idle()) ==> h5.Idle()
    {
      var sel := h5.GetSelection(u, hs[i]);
      if sel.Err? {
        CollectStopsAt(steps, calls);
        return Run(calls, Some(sel.error));
      }
      CollectNext(steps, calls, i);
      calls := calls + [AddSelection(hs[i], sel.value)];
      i := i + 1;
    }
    assert steps[..i] == steps;
    run := Run(calls, None);
  }

  /** The body of the universe loop for one universe. */
  method MigrateUniverse(h5: StateFile.LegacyStateFile, u: string) returns (run: Run)
    modifies h5
    ensures run == UniverseRun(h5.Loaded(), u)
    ensures old(h5.Idle()) ==> h5.Idle()
  {
    var paths := h5.GetUniverse(u);
    if paths.Err? {
      return Run([], Some(paths.error));
    }
    var top := paths.value.0;
    var traj := paths.value.1;
    if |top| == 0 {
      return Run([], Some(IndexError));
    }
    var add := AddUniverse(u, top[0].abspath, Abspaths(traj));
    var hs := h5.ListSelections(u);
    if hs.Err? {
      return Run([add], Some(hs.error));
    }
    var sels := MigrateSelections(h5, u, hs.value);
    if sels.failure.Some? {
      return Run([add] + sels.calls, sels.failure);
    }
    var rn := h5.GetResnums(u);
    if rn.Err? {
      return Run([add] + sels.calls, Some(rn.error));
    }
    run := Run([add] + sels.calls + [SetResnums(u, rn.value)], None);
  }

  /** for uname in list_universes(): the universe loop. */
  method MigrateUniverses(h5: StateFile.LegacyStateFile, us: seq<string>) returns (run: Run)
    modifies h5
    ensures run == UniversesRun(h5.Loaded(), us)
    ensures old(h5.Idle()) ==> h5.Idle()
  {
    ghost var blocks := UniverseBlocks(h5.Loaded(), us);
    var calls := [];
    var i := 0;
    while i < |us|
      invariant 0 <= i <= |us|
      invariant Sequenced(blocks[..i]) == Run(calls, None)
      invariant old(h5.Idle()) ==> h5.Idle()
    {
      var block := MigrateUniverse(h5, us[i]);
      assert block == blocks[i];
      SequencedNext(blocks, i);
      calls := calls + block.calls;
      if block.failure.Some? {
        SequencedStop(blocks, i + 1);
        return Run(calls, block.failure);
      }
      i := i + 1;
    }
    assert blocks[..i] == blocks;
    run := Run(calls, None);
  }

  /** The Sim part: the universe loop, then default = get_default(). */
  method MigrateSim(h5: StateFile.LegacyStateFile) returns (run: Run)
    modifies h5
    ensures run == SimRun(h5.Loaded())
    ensures old(h5.Idle()) ==> h5.Idle()
  {
    var names := h5.ListUniverses();
    if names.Err? {
      return Run([], Some(names.error));
    }
    var universes := MigrateUniverses(h5, names.value);
    if universes.failure.Some? {
      return universes;
    }
    var calls := universes.calls;
    var d := h5.GetDefault();
    if d.Err? {
      return Run(calls, Some(d.error));
    }
    run := Run(calls + [SetDefault(d.value)], None);
  }

  /** The calls made on json_state for one state file of the given kind. */
  method Migrate(h5: StateFile.LegacyStateFile, kind: string) returns (run: Run)
    modifies h5
    ensures run == MigrationRun(kind, h5.Loaded())
    ensures old(h5.Idle()) ==> h5.Idle()
  {
    run := MigrateTreant(h5);
    if run.failure.None? {
      if kind == "Group" {
        var group := MigrateMembers(h5);
        run := Then(run, group);
      } else if kind == "Sim" {
        var sim := MigrateSim(h5);
        run := Then(run, sim);
      }
    }
  }

  /** One iteration of the main loop. */
  method ConvertFile(sf: string, disk: StateFile.Hdf5Store, simAvailable: bool)
    returns (events: seq<Event>, failure: Option<Error>)
    ensures Step(events, failure) == ConvertOne(sf, disk.files, simAvailable)
  {
    var filename := PosixPath.Basename(sf);
    var dirname := PosixPath.Dirname(sf);
    var parts := Text.Split(filename, '.');
    if |parts| != 3 {
      return [], Some(UnpackError(|parts|));
    }
    var treanttype, uuid, ext := parts[0], parts[1], parts[2];
    if treanttype !in Kinds || ext != "h5" || |uuid| != 36 {
      return [Skipped(sf)], None;
    }
    var jsonfile := PosixPath.Join(dirname, OutputName(treanttype, uuid));
    events, failure := CopyFile(sf, treanttype, jsonfile, disk, simAvailable);
  }

  /** The rest of the loop body, from the empty output file on. */
  method CopyFile(sf: string, treanttype: string, jsonfile: string, disk: StateFile.Hdf5Store, simAvailable: bool)
    returns (events: seq<Event>, failure: Option<Error>)
    ensures Step(events, failure) == Conversion(sf, treanttype, jsonfile, MigrationRun(treanttype, Open(disk.files, sf)), simAvailable)
  {
    if treanttype == "Sim" && !simAvailable {
      return [WroteEmpty(jsonfile)], Some(KeyError("Sim"));
    }
    var run := BuildAndMigrate(sf, treanttype, disk);
    events := [WroteEmpty(jsonfile), Built(treanttype, sf, jsonfile)] + Issue(run.calls);
    failure := run.failure;
    if failure.None? {
      events := events + [Converted(sf)];
    }
  }

  /** h5_state = mapping[treanttype][0](statefile), then the copy. */
  method BuildAndMigrate(sf: string, treanttype: string, disk: StateFile.Hdf5Store) returns (run: Run)
    ensures run == MigrationRun(treanttype, Open(disk.files, sf))
  {
    var h5 := new StateFile.LegacyStateFile(sf, disk);
    assert h5.Loaded() == Open(disk.files, sf);
    run := Migrate(h5, treanttype);
  }

  /** for sf in args.statefile: ..., stopping at the first exception. */
  method ConvertAll(sfs: seq<string>, disk: StateFile.Hdf5Store, simAvailable: bool)
    returns (events: seq<Event>, failure: Option<Error>)
    ensures Step(events, failure) == Batch(sfs, disk.files, simAvailable)
  {
    ghost var steps := Each(sfs, Converter(disk.files, simAvailable));
    events, failure := [], None;
    var i := 0;
    while i < |sfs|
      invariant 0 <= i <= |sfs|
      invariant Step(events, None) == Chain(steps[..i])
    {
      var evs, f := ConvertFile(sfs[i], disk, simAvailable);
      assert Step(evs, f) == steps[i];
      ChainNext(steps, i);
      events := events + evs;
      if f.Some? {
        failure := f;
        ChainStop(steps, i + 1);
        return;
      }
      i := i + 1;
    }
    assert steps[..i] == steps;
  }
}
