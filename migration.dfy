/** What the conversion loop copies from a legacy state file to the new JSON
    state object, as the trace of calls it issues on that object. The target's
    own behaviour (deduplication, relative paths, validation) is not part of
    this model: only the calls are. Every getter opens the file anew, so each
    read below starts from src, the result of opening it. */
module Migration {
  import opened Base
  import opened Legacy

  /** The mutations issued on json_state, in the order they are made. */
  datatype Call =
    | AddTags(tags: seq<string>)                                     // tags.add(*tags)
    | AddCategories(categories: map<string, string>)                 // categories.add(**categories)
    | AddMember(uuid: string, treanttype: string, abspath: string)   // _add_member(uuid, treanttype, abspath)
    | AddUniverse(name: string, topology: string, trajectory: seq<string>)  // universes.add(name, top, traj)
    | AddSelection(handle: string, selection: SelectionArray)        // selections.add(handle, *sel)
    | SetResnums(universe: string, resnums: Option<seq<uint32>>)     // resnums(universe, resnums)
    | SetDefault(default: Option<string>)                            // default = ...

  /** The calls issued, and the exception that stopped the conversion, if any. */
  datatype Run = Run(calls: seq<Call>, failure: Option<Error>)

  /** Sequencing: b runs only if a did not raise. */
  function Then(a: Run, b: Run): Run
  {
    if a.failure.Some? then a else Run(a.calls + b.calls, b.failure)
  }

  /** A loop whose every iteration issues one call or raises: it stops at
      the first step that raises, and every step before it is issued, in order. */
  function Collect(steps: seq<Result<Call>>): (r: Run)
    ensures |r.calls| <= |steps|
    ensures forall i :: 0 <= i < |r.calls| ==> steps[i] == Ok(r.calls[i])
    ensures r.failure.None? ==> |r.calls| == |steps|
    ensures r.failure.Some? ==> |r.calls| < |steps| && steps[|r.calls|] == Err(r.failure.value)
    decreases |steps|
  {
    if |steps| == 0 then Run([], None)
    else
      var before := Collect(steps[..|steps| - 1]);
      if before.failure.Some? then before
      else
        match steps[|steps| - 1]
        case Err(e) => Run(before.calls, Some(e))
        case Ok(c) => Run(before.calls + [c], None)
  }

  /** A loop that has issued calls for its first |calls| steps and meets a
      step that raises ends there, with that step's exception. */
  lemma CollectStopsAt(steps: seq<Result<Call>>, calls: seq<Call>)
    requires |calls| < |steps|
    requires forall j :: 0 <= j < |calls| ==> steps[j] == Ok(calls[j])
    requires steps[|calls|].Err?
    ensures Collect(steps) == Run(calls, Some(steps[|calls|].error))
  {
    var r := Collect(steps);
    assert |r.calls| == |calls|;
    assert r.calls == calls;
  }

  /** One more step that issues its call extends the calls of a loop that
      has not raised. */
  lemma CollectNext(steps: seq<Result<Call>>, calls: seq<Call>, i: nat)
    requires i < |steps| && steps[i].Ok?
    requires Collect(steps[..i]) == Run(calls, None)
    ensures Collect(steps[..i + 1]) == Run(calls + [steps[i].value], None)
  {
    assert steps[..i + 1][..i] == steps[..i];
  }

  /** A loop whose every step issues its call issues them all and completes. */
  lemma CollectAllOk(steps: seq<Result<Call>>, calls: seq<Call>)
    requires |steps| == |calls| && forall i :: 0 <= i < |steps| ==> steps[i] == Ok(calls[i])
    ensures Collect(steps) == Run(calls, None)
  {
    var r := Collect(steps);
    assert r.calls == calls;
  }

  /** Copy of the generic Treant parts: tags, then categories. */
  function TreantRun(src: Result<Record>): Run
  {
    match Via(src, GetTags)
    case Err(e) => Run([], Some(e))
    case Ok(tags) =>
      match Via(src, GetCategories)
      case Err(e) => Run([AddTags(tags)], Some(e))
      case Ok(cats) => Run([AddTags(tags), AddCategories(cats)], None)
  }

  /** One iteration of the member loop: get_member, then _add_member with
      its treanttype and abspath fields. */
  function MemberStep(src: Result<Record>, u: string): Result<Call>
  {
    match Via(src, rec => GetMember(rec, u))
    case Err(e) => Err(e)
    case Ok(info) =>
      if info.None? then Err(TypeError)
      else
      var m := info.value;
      if "treanttype" !in m then Err(KeyError("treanttype"))
      else if "abspath" !in m then Err(KeyError("abspath"))
      else Ok(AddMember(u, m["treanttype"], m["abspath"]))
  }

  /** The steps of the member loop over the uuids us, in order. */
  function MemberSteps(src: Result<Record>, us: seq<string>): seq<Result<Call>>
  {
    seq(|us|, i requires 0 <= i < |us| => MemberStep(src, us[i]))
  }

  /** The member loop. */
  function MembersRun(src: Result<Record>, us: seq<string>): Run
  {
    Collect(MemberSteps(src, us))
  }

  /** The Group part: one member per stored uuid. */
  function GroupRun(src: Result<Record>): Run
  {
    match Via(src, GetMembersUuid)
    case Err(e) => Run([], Some(e))
    case Ok(us) => MembersRun(src, us)
  }

  /** traj['abspath']: the abspath column of a path table. */
  function Abspaths(rows: seq<PathRow>): seq<string>
  {
    seq(|rows|, i requires 0 <= i < |rows| => rows[i].abspath)
  }

  /** One iteration of the selection loop. */
  function SelectionStep(src: Result<Record>, u: string, h: string): Result<Call>
  {
    match Via(src, rec => GetSelection(rec, u, h))
    case Err(e) => Err(e)
    case Ok(sel) => Ok(AddSelection(h, sel))
  }

  /** The steps of the selection loop over the names hs of universe u. */
  function SelectionSteps(src: Result<Record>, u: string, hs: seq<string>): seq<Result<Call>>
  {
    seq(|hs|, i requires 0 <= i < |hs| => SelectionStep(src, u, hs[i]))
  }

  /** The selection loop. */
  function SelectionsRun(src: Result<Record>, u: string, hs: seq<string>): Run
  {
    Collect(SelectionSteps(src, u, hs))
  }

  /** One universe: add it with the first topology abspath and every
      trajectory abspath, then its selections, then its resnums, which are
      set even when there are none. */
  function UniverseRun(src: Result<Record>, u: string): Run
  {
    match Via(src, rec => GetUniverse(rec, u))
    case Err(e) => Run([], Some(e))
    case Ok(paths) =>
      if |paths.0| == 0 then Run([], Some(IndexError))
      else
        var add := AddUniverse(u, paths.0[0].abspath, Abspaths(paths.1));
        match Via(src, rec => ListSelections(rec, u))
        case Err(e) => Run([add], Some(e))
        case Ok(hs) =>
          var sels := SelectionsRun(src, u, hs);
          if sels.failure.Some? then Run([add] + sels.calls, sels.failure)
          else
            match Via(src, rec => GetResnums(rec, u))
            case Err(e) => Run([add] + sels.calls, Some(e))
            case Ok(rn) => Run([add] + sels.calls + [SetResnums(u, rn)], None)
  }

  /** A loop whose every iteration issues a block of calls or raises part
      way: the blocks in turn, up to and including the first that raises. */
  function Sequenced(blocks: seq<Run>): Run
    decreases |blocks|
  {
    if |blocks| == 0 then Run([], None)
    else
      var before := Sequenced(blocks[..|blocks| - 1]);
      if before.failure.Some? then before
      else Run(before.calls + blocks[|blocks| - 1].calls, blocks[|blocks| - 1].failure)
  }

  /** One more block after a prefix that went through. */
  lemma SequencedNext(blocks: seq<Run>, i: nat)
    requires i < |blocks| && Sequenced(blocks[..i]).failure.None?
    ensures Sequenced(blocks[..i + 1]) == Run(Sequenced(blocks[..i]).calls + blocks[i].calls, blocks[i].failure)
  {
    assert blocks[..i + 1][..i] == blocks[..i];
  }

  /** Once a block raises, the later blocks are not reached. */
  lemma {:induction false} SequencedStop(blocks: seq<Run>, n: nat)
    requires n <= |blocks| && Sequenced(blocks[..n]).failure.Some?
    ensures Sequenced(blocks) == Sequenced(blocks[..n])
    decreases |blocks| - n
  {
    if n < |blocks| {
      assert blocks[..|blocks| - 1][..n] == blocks[..n];
      SequencedStop(blocks[..|blocks| - 1], n);
    } else {
      assert blocks[..n] == blocks;
    }
  }

  /** The blocks of the universe loop over the names us, in order. */
  function UniverseBlocks(src: Result<Record>, us: seq<string>): seq<Run>
  {
    seq(|us|, i requires 0 <= i < |us| => UniverseRun(src, us[i]))
  }

  /** The universe loop. */
  function UniversesRun(src: Result<Record>, us: seq<string>): Run
  {
    Sequenced(UniverseBlocks(src, us))
  }

  /** The Sim part: every listed universe, then the default, once. */
  function SimRun(src: Result<Record>): Run
  {
    match Via(src, ListUniverses)
    case Err(e) => Run([], Some(e))
    case Ok(names) =>
      var us := UniversesRun(src, names);
      if us.failure.Some? then us
      else
        match Via(src, GetDefault)
        case Err(e) => Run(us.calls, Some(e))
        case Ok(d) => Run(us.calls + [SetDefault(d)], None)
  }

  /** Everything copied for a state file of the given kind. */
  function MigrationRun(kind: string, src: Result<Record>): Run
  {
    Then(TreantRun(src),
      if kind == "Group" then GroupRun(src)
      else if kind == "Sim" then SimRun(src)
      else Run([], None))
  }

  // ---------------------------------------------------------------------
  // Generic part

  /** Tags are copied first and categories second, for every kind; a file that
      cannot be opened issues no call at all. */
  lemma TagsThenCategories(kind: string, rec: Record)
    requires rec.tags.Some? && rec.categories.Some?
    ensures var r := MigrationRun(kind, Ok(rec));
      && |r.calls| >= 2
      && r.calls[0] == AddTags(rec.tags.value)
      && r.calls[1] == AddCategories(CategoryMap(rec.categories.value))
    ensures forall e :: MigrationRun(kind, Err(e)) == Run([], Some(e))
  {
  }

  /** A Treant copies its tags and categories and nothing else. */
  lemma TreantCopiesOnlyGeneric(rec: Record)
    requires rec.tags.Some? && rec.categories.Some?
    ensures MigrationRun("Treant", Ok(rec))
         == Run([AddTags(rec.tags.value), AddCategories(CategoryMap(rec.categories.value))], None)
  {
  }

  // ---------------------------------------------------------------------
  // Group part

  /** The uuid column of a members table. */
  function UuidAt(t: Table, i: nat): string
    requires "uuid" in t.columns && i < |t.rows|
  {
    t.rows[i][ColumnIndex(t.columns, "uuid")]
  }

  /** The row get_member returns for the uuid of row i: the last row with that uuid. */
  function MemberRowOf(t: Table, i: nat): (j: nat)
    requires "uuid" in t.columns && i < |t.rows|
    ensures i <= j < |t.rows| && UuidAt(t, j) == UuidAt(t, i)
    ensures forall k :: j < k < |t.rows| ==> UuidAt(t, k) != UuidAt(t, i)
  {
    var m := LastMatch(t.rows, ColumnIndex(t.columns, "uuid"), UuidAt(t, i));
    assert m.Some?;
    m.value
  }

  /** A Group with uuid, treanttype and abspath columns copies, for the uuid
      of every stored row in storage order, the treanttype and abspath of the
      last row with that uuid. */
  lemma GroupCopiesMembers(rec: Record, t: Table)
    requires rec.members == Some(t)
    requires "uuid" in t.columns && "treanttype" in t.columns && "abspath" in t.columns
    ensures var r := GroupRun(Ok(rec));
      && r.failure.None?
      && |r.calls| == |t.rows|
      && forall i :: 0 <= i < |t.rows| ==>
           var j := MemberRowOf(t, i);
           r.calls[i] == AddMember(UuidAt(t, i),
                                   t.rows[j][ColumnIndex(t.columns, "treanttype")],
                                   t.rows[j][ColumnIndex(t.columns, "abspath")])
  {
    var us := Column(t, "uuid").value;
    var tk := ColumnIndex(t.columns, "treanttype");
    var ak := ColumnIndex(t.columns, "abspath");
    var calls := seq(|t.rows|, i requires 0 <= i < |t.rows| =>
      AddMember(UuidAt(t, i), t.rows[MemberRowOf(t, i)][tk], t.rows[MemberRowOf(t, i)][ak]));
    forall i | 0 <= i < |t.rows|
      ensures MemberStep(Ok(rec), us[i]) == Ok(calls[i])
    {
      MemberCallOf(rec, t, i);
    }
    CollectAllOk(MemberSteps(Ok(rec), us), calls);
  }

  /** Rows that share a uuid, wherever they are stored, give the same call:
      the one built from the last of them. */
  lemma RepeatedUuidCopiedAlike(rec: Record, t: Table)
    requires rec.members == Some(t)
    requires "uuid" in t.columns && "treanttype" in t.columns && "abspath" in t.columns
    ensures var r := GroupRun(Ok(rec));
      && |r.calls| == |t.rows|
      && forall i, j :: 0 <= i < |t.rows| && 0 <= j < |t.rows| && UuidAt(t, i) == UuidAt(t, j) ==>
           r.calls[i] == r.calls[j]
  {
    GroupCopiesMembers(rec, t);
  }

  /** The iteration for the uuid of row i copies the row MemberRowOf picks. */
  lemma MemberCallOf(rec: Record, t: Table, i: nat)
    requires rec.members == Some(t)
    requires "uuid" in t.columns && "treanttype" in t.columns && "abspath" in t.columns
    requires i < |t.rows|
    ensures var j := MemberRowOf(t, i);
      MemberStep(Ok(rec), UuidAt(t, i)) == Ok(AddMember(UuidAt(t, i),
        t.rows[j][ColumnIndex(t.columns, "treanttype")], t.rows[j][ColumnIndex(t.columns, "abspath")]))
  {
    var tk := ColumnIndex(t.columns, "treanttype");
    var ak := ColumnIndex(t.columns, "abspath");
    MemberIsLastRow(t, UuidAt(t, i), MemberRowOf(t, i));
    assert t.columns[tk] == "treanttype" && t.columns[ak] == "abspath";
  }

  /** Two tables that differ at most in one column. */
  predicate AgreeExcept(t1: Table, t2: Table, col: string)
  {
    && t1.columns == t2.columns
    && |t1.rows| == |t2.rows|
    && forall i, j :: 0 <= i < |t1.rows| && 0 <= j < |t1.columns| && t1.columns[j] != col ==>
         t1.rows[i][j] == t2.rows[i][j]
  }

  lemma {:induction false} LastMatchAgree(rows1: seq<seq<string>>, rows2: seq<seq<string>>, k: nat, key: string)
    requires |rows1| == |rows2|
    requires forall j :: 0 <= j < |rows1| ==> k < |rows1[j]| && k < |rows2[j]| && rows1[j][k] == rows2[j][k]
    ensures LastMatch(rows1, k, key) == LastMatch(rows2, k, key)
    decreases |rows1|
  {
    if |rows1| > 0 {
      LastMatchAgree(rows1[..|rows1| - 1], rows2[..|rows2| - 1], k, key);
    }
  }

  /** Tables agreeing outside relCont give get_member results that agree outside relCont. */
  lemma MemberInTableAgree(t1: Table, t2: Table, u: string)
    requires AgreeExcept(t1, t2, "relCont")
    ensures MemberInTable(t1, u).Ok? <==> MemberInTable(t2, u).Ok?
    ensures MemberInTable(t1, u).Ok? ==> (MemberInTable(t1, u).value.None? <==> MemberInTable(t2, u).value.None?)
    ensures MemberInTable(t1, u).Ok? && MemberInTable(t1, u).value.Some? ==>
      var m1 := MemberInTable(t1, u).value.value;
      var m2 := MemberInTable(t2, u).value.value;
      m1.Keys == m2.Keys && forall c :: c in m1 && c != "relCont" ==> m1[c] == m2[c]
  {
    if "uuid" in t1.columns {
      var k := ColumnIndex(t1.columns, "uuid");
      assert t1.columns[k] == "uuid";
      LastMatchAgree(t1.rows, t2.rows, k, u);
      var m := LastMatch(t1.rows, k, u);
      if m.Some? {
        var m1 := RowMap(t1.columns, t1.rows[m.value]);
        var m2 := RowMap(t2.columns, t2.rows[m.value]);
        forall c | c in m1 && c != "relCont" ensures m1[c] == m2[c] {
          var j := ColumnIndex(t1.columns, c);
          assert m1[t1.columns[j]] == t1.rows[m.value][j];
        }
      }
    }
  }

  lemma MemberStepAgree(rec: Record, t1: Table, t2: Table, u: string)
    requires AgreeExcept(t1, t2, "relCont")
    ensures MemberStep(Ok(rec.(members := Some(t1))), u) == MemberStep(Ok(rec.(members := Some(t2))), u)
  {
    MemberInTableAgree(t1, t2, u);
    assert GetMember(rec.(members := Some(t1)), u) == MemberInTable(t1, u);
    assert GetMember(rec.(members := Some(t2)), u) == MemberInTable(t2, u);
  }

  lemma UuidColumnAgree(t1: Table, t2: Table)
    requires AgreeExcept(t1, t2, "relCont")
    ensures Column(t1, "uuid") == Column(t2, "uuid")
  {
    if "uuid" in t1.columns {
      var k := ColumnIndex(t1.columns, "uuid");
      assert t1.columns[k] == "uuid";
      var c1 := Column(t1, "uuid").value;
      var c2 := Column(t2, "uuid").value;
      forall i | 0 <= i < |c1| ensures c1[i] == c2[i] {
        assert c1[i] == t1.rows[i][k];
      }
      assert c1 == c2;
    }
  }

  lemma GroupRunAgree(rec: Record, t1: Table, t2: Table)
    requires AgreeExcept(t1, t2, "relCont")
    ensures GroupRun(Ok(rec.(members := Some(t1)))) == GroupRun(Ok(rec.(members := Some(t2))))
  {
    var r1 := rec.(members := Some(t1));
    var r2 := rec.(members := Some(t2));
    UuidColumnAgree(t1, t2);
    assert GetMembersUuid(r1) == Column(t1, "uuid");
    assert GetMembersUuid(r2) == Column(t2, "uuid");
    if "uuid" in t1.columns {
      var us := Column(t1, "uuid").value;
      var s1 := MemberSteps(Ok(r1), us);
      var s2 := MemberSteps(Ok(r2), us);
      forall i | 0 <= i < |us| ensures s1[i] == s2[i] {
        MemberStepAgree(rec, t1, t2, us[i]);
      }
      assert s1 == s2;
    }
  }

  /** The generic part does not read the members table. */
  lemma TreantRunIgnoresMembers(rec: Record, t: Table)
    ensures TreantRun(Ok(rec.(members := Some(t)))) == TreantRun(Ok(rec))
  {
    assert GetTags(rec.(members := Some(t))) == GetTags(rec);
    assert GetCategories(rec.(members := Some(t))) == GetCategories(rec);
  }

  /** relCont is never copied: what a Group issues does not depend on the
      relCont column of its members table. */
  lemma RelContNeverCopied(rec: Record, t1: Table, t2: Table)
    requires AgreeExcept(t1, t2, "relCont")
    ensures MigrationRun("Group", Ok(rec.(members := Some(t1)))) == MigrationRun("Group", Ok(rec.(members := Some(t2))))
  {
    GroupRunAgree(rec, t1, t2);
    TreantRunIgnoresMembers(rec, t1);
    TreantRunIgnoresMembers(rec, t2);
  }

  // ---------------------------------------------------------------------
  // Sim part

  /** A universe that converts issues exactly: add-universe with the first
      topology abspath and the trajectory abspaths in order, one
      add-selection per listed selection in order, and one resnums call,
      whose argument is None when the universe has no resnums. */
  lemma UniverseBlock(rec: Record, u: string)
    requires UniverseRun(Ok(rec), u).failure.None?
    ensures GetUniverse(rec, u).Ok? && |GetUniverse(rec, u).value.0| > 0 && ListSelections(rec, u).Ok?
    ensures var top := GetUniverse(rec, u).value.0;
      var traj := GetUniverse(rec, u).value.1;
      var hs := ListSelections(rec, u).value;
      var calls := UniverseRun(Ok(rec), u).calls;
      && |calls| == |hs| + 2
      && calls[0] == AddUniverse(u, top[0].abspath, Abspaths(traj))
      && (forall i :: 0 <= i < |hs| ==>
            GetSelection(rec, u, hs[i]).Ok? && calls[i + 1] == AddSelection(hs[i], GetSelection(rec, u, hs[i]).value))
      && calls[|hs| + 1] == SetResnums(u, FindUniverse(rec, u).value.resnums)
  {
  }

  /** With distinct selection names, every listed selection converts, and
      the selection calls carry the stored arrays in listing order. */
  lemma SelectionsCopied(rec: Record, u: string, x: Universe, sels: seq<Named<SelectionArray>>)
    requires FindUniverse(rec, u) == Some(x) && x.selections == Some(sels)
    requires forall a, b :: 0 <= a < b < |sels| ==> sels[a].name != sels[b].name
    ensures var r := SelectionsRun(Ok(rec), u, Names(sels));
      && r.failure.None?
      && |r.calls| == |sels|
      && forall i :: 0 <= i < |sels| ==> r.calls[i] == AddSelection(sels[i].name, sels[i].node)
  {
    var hs := Names(sels);
    forall i | 0 <= i < |sels|
      ensures SelectionStep(Ok(rec), u, hs[i]) == Ok(AddSelection(sels[i].name, sels[i].node))
    {
      FindListed(sels, i);
    }
  }

  /** No call of the selection, universe and universes loops sets the default. */
  predicate NoDefault(calls: seq<Call>)
  {
    forall i :: 0 <= i < |calls| ==> !calls[i].SetDefault?
  }

  /** The selection loop issues add-selection calls only. */
  lemma SelectionsOnlyAdd(src: Result<Record>, u: string, hs: seq<string>)
    ensures forall i :: 0 <= i < |SelectionsRun(src, u, hs).calls| ==> SelectionsRun(src, u, hs).calls[i].AddSelection?
  {
    var steps := SelectionSteps(src, u, hs);
    var r := Collect(steps);
    forall i | 0 <= i < |r.calls| ensures r.calls[i].AddSelection? {
      assert steps[i] == SelectionStep(src, u, hs[i]);
    }
  }

  /** A universe block issues no default call. */
  lemma UniverseNoDefault(src: Result<Record>, u: string)
    ensures NoDefault(UniverseRun(src, u).calls)
  {
    match Via(src, rec => ListSelections(rec, u))
    case Err(_) =>
    case Ok(hs) => SelectionsOnlyAdd(src, u, hs);
  }

  lemma {:induction false} SequencedNoDefault(blocks: seq<Run>)
    requires forall i :: 0 <= i < |blocks| ==> NoDefault(blocks[i].calls)
    ensures NoDefault(Sequenced(blocks).calls)
    decreases |blocks|
  {
    if |blocks| > 0 {
      var init := blocks[..|blocks| - 1];
      assert forall i :: 0 <= i < |init| ==> init[i] == blocks[i];
      SequencedNoDefault(init);
    }
  }

  lemma UniversesNoDefault(src: Result<Record>, us: seq<string>)
    ensures NoDefault(UniversesRun(src, us).calls)
  {
    var blocks := UniverseBlocks(src, us);
    forall i | 0 <= i < |us|
      ensures NoDefault(blocks[i].calls)
    {
      UniverseNoDefault(src, us[i]);
    }
    SequencedNoDefault(blocks);
  }

  /** A Sim that converts sets the default exactly once, as its last call,
      to what get_default returns. */
  lemma DefaultSetOnceLast(rec: Record)
    requires SimRun(Ok(rec)).failure.None?
    ensures var calls := SimRun(Ok(rec)).calls;
      && |calls| >= 1
      && GetDefault(rec).Ok?
      && calls[|calls| - 1] == SetDefault(GetDefault(rec).value)
      && NoDefault(calls[..|calls| - 1])
  {
    var names := ListUniverses(rec).value;
    UniversesNoDefault(Ok(rec), names);
    var calls := SimRun(Ok(rec)).calls;
    assert calls[..|calls| - 1] == UniversesRun(Ok(rec), names).calls;
  }

  /** The names of the universes added, in call order. */
  function AddedUniverses(calls: seq<Call>): seq<string>
    decreases |calls|
  {
    if |calls| == 0 then []
    else
      var last := calls[|calls| - 1];
      AddedUniverses(calls[..|calls| - 1]) + (if last.AddUniverse? then [last.name] else [])
  }

  lemma {:induction false} AddedUniversesAppend(a: seq<Call>, b: seq<Call>)
    ensures AddedUniverses(a + b) == AddedUniverses(a) + AddedUniverses(b)
    decreases |b|
  {
    if |b| == 0 {
      assert a + b == a;
    } else {
      AddedUniversesAppend(a, b[..|b| - 1]);
      assert (a + b)[..|a + b| - 1] == a + b[..|b| - 1];
    }
  }

  lemma {:induction false} NoUniverseAdded(calls: seq<Call>)
    requires forall i :: 0 <= i < |calls| ==> !calls[i].AddUniverse?
    ensures AddedUniverses(calls) == []
    decreases |calls|
  {
    if |calls| > 0 {
      NoUniverseAdded(calls[..|calls| - 1]);
    }
  }

  /** A universe block that converts adds exactly that one universe. */
  lemma UniverseAddsItself(rec: Record, u: string)
    requires UniverseRun(Ok(rec), u).failure.None?
    ensures AddedUniverses(UniverseRun(Ok(rec), u).calls) == [u]
  {
    var hs := ListSelections(rec, u).value;
    var add := AddUniverse(u, GetUniverse(rec, u).value.0[0].abspath, Abspaths(GetUniverse(rec, u).value.1));
    var sels := SelectionsRun(Ok(rec), u, hs);
    var rn := SetResnums(u, GetResnums(rec, u).value);
    SelectionsOnlyAdd(Ok(rec), u, hs);
    NoUniverseAdded(sels.calls);
    AddedUniversesAppend([add], sels.calls);
    AddedUniversesAppend([add] + sels.calls, [rn]);
    assert AddedUniverses([add]) == [u] by {
      assert [add][..0] == [];
    }
  }

  /** Appending a block that adds just u to calls that added init. */
  lemma AddedAfter(a: seq<Call>, b: seq<Call>, init: seq<string>, u: string)
    requires AddedUniverses(a) == init && AddedUniverses(b) == [u]
    ensures AddedUniverses(a + b) == init + [u]
  {
    AddedUniversesAppend(a, b);
  }

  /** Blocks that each add their own universe add them all, in order. */
  lemma {:induction false} SequencedAdded(blocks: seq<Run>, us: seq<string>)
    requires |blocks| == |us| && Sequenced(blocks).failure.None?
    requires forall i :: 0 <= i < |blocks| && blocks[i].failure.None? ==> AddedUniverses(blocks[i].calls) == [us[i]]
    ensures AddedUniverses(Sequenced(blocks).calls) == us
    decreases |blocks|
  {
    if |blocks| > 0 {
      var n := |blocks| - 1;
      var init, names := blocks[..n], us[..n];
      assert Sequenced(blocks) == Run(Sequenced(init).calls + blocks[n].calls, blocks[n].failure);
      assert forall i :: 0 <= i < n ==> init[i] == blocks[i] && names[i] == us[i];
      SequencedAdded(init, names);
      AddedAfter(Sequenced(init).calls, blocks[n].calls, names, us[n]);
      assert names + [us[n]] == us;
    }
  }

  /** A universe loop that converts adds the listed universes in listing order. */
  lemma UniversesInOrder(rec: Record, us: seq<string>)
    requires UniversesRun(Ok(rec), us).failure.None?
    ensures AddedUniverses(UniversesRun(Ok(rec), us).calls) == us
  {
    var blocks := UniverseBlocks(Ok(rec), us);
    forall i | 0 <= i < |us| && blocks[i].failure.None?
      ensures AddedUniverses(blocks[i].calls) == [us[i]]
    {
      UniverseAddsItself(rec, us[i]);
    }
    SequencedAdded(blocks, us);
  }

  /** A Sim that converts adds its universes in listing order, each once. */
  lemma UniversesAddedInListingOrder(rec: Record)
    requires SimRun(Ok(rec)).failure.None?
    ensures ListUniverses(rec).Ok?
    ensures AddedUniverses(SimRun(Ok(rec)).calls) == ListUniverses(rec).value
  {
    var names := ListUniverses(rec).value;
    UniversesInOrder(rec, names);
    var d := SetDefault(GetDefault(rec).value);
    AddedUniversesAppend(UniversesRun(Ok(rec), names).calls, [d]);
    assert AddedUniverses([d]) == [] by {
      assert [d][..0] == [];
    }
  }
}
