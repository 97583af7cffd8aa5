/** The legacy HDF5 state file as an in-memory value, and the pure part of
    the getters of TreantFileHDF5, GroupFileHDF5 and SimFileHDF5: what each
    one returns or raises for a given file content. A node that pytables
    would not find is a None section. */
module Legacy {
  import opened Base

  /** A resnum is stored in an unsigned 32-bit column. */
  type uint32 = x: int | 0 <= x < 0x1_0000_0000

  /** One row of a topology or trajectory table. */
  datatype PathRow = PathRow(abspath: string, relCont: string)

  /** A stored selection: an array of selection strings or of atom indices. */
  datatype SelectionArray = Expressions(exprs: seq<string>) | Indices(indices: seq<int>)

  /** A child of an HDF5 group, in the group's listing order. */
  datatype Named<T> = Named(name: string, node: T)

  /** The group /universes/<name>. */
  datatype Universe = Universe(
    topology: Option<seq<PathRow>>,
    trajectory: Option<seq<PathRow>>,
    resnums: Option<seq<uint32>>,
    selections: Option<seq<Named<SelectionArray>>>)

  datatype Category = Category(category: string, value: string)

  /** A table with named string columns, as the members table is stored. */
  datatype TableData = TableData(columns: seq<string>, rows: seq<seq<string>>)

  /** Column names are distinct and every row has one value per column. */
  predicate WellFormed(t: TableData)
  {
    && (forall i, j :: 0 <= i < j < |t.columns| ==> t.columns[i] != t.columns[j])
    && (forall r :: 0 <= r < |t.rows| ==> |t.rows[r]| == |t.columns|)
  }

  type Table = t: TableData | WellFormed(t) witness TableData([], [])

  /** The nodes under '/' that the getters read; single-column tables are
      sequences of their values. */
  datatype Record = Record(
    version: Option<seq<string>>,
    tags: Option<seq<string>>,
    categories: Option<seq<Category>>,
    members: Option<Table>,
    mdsVersion: Option<seq<string>>,
    default: Option<seq<string>>,
    universes: Option<seq<Named<Universe>>>)

  /** The content of a file that tables.open_file(path, 'a') has just created. */
  const Empty := Record(None, None, None, None, None, None, None)

  /** What tables.open_file finds at a path: the file there, or the error of
      opening a path where there is none. */
  function Open(files: map<string, Record>, path: string): Result<Record>
  {
    if path in files then Ok(files[path]) else Err(OpenError(path))
  }

  /** Runs a getter body on an opened file, or passes on the error of opening it. */
  function Via<T>(src: Result<Record>, read: Record -> Result<T>): Result<T>
  {
    match src
    case Err(e) => Err(e)
    case Ok(rec) => read(rec)
  }

  /** table.cols.<field>[0] for the node /<name>. */
  function FirstRow(node: Option<seq<string>>, name: string): Result<string>
  {
    match node
    case None => Err(NoSuchNode("/", name))
    case Some(rows) => if |rows| == 0 then Err(IndexError) else Ok(rows[0])
  }

  /** get_version. */
  function GetVersion(rec: Record): Result<string>
  {
    FirstRow(rec.version, "version")
  }

  /** get_version and get_MDS_version read back the first row stored, raise
      IndexError for an empty table and NoSuchNodeError for a missing one. */
  lemma VersionRoundTrip(rec: Record, v: string, rest: seq<string>)
    ensures GetVersion(rec.(version := Some([v] + rest))) == Ok(v)
    ensures GetMdsVersion(rec.(mdsVersion := Some([v] + rest))) == Ok(v)
    ensures GetVersion(rec.(version := Some([]))) == Err(IndexError)
    ensures GetMdsVersion(rec.(mdsVersion := Some([]))) == Err(IndexError)
    ensures GetVersion(rec.(version := None)) == Err(NoSuchNode("/", "version"))
    ensures GetMdsVersion(rec.(mdsVersion := None)) == Err(NoSuchNode("/", "mds_version"))
  {
  }

  /** get_tags: the tag of every row, in table order. */
  function GetTags(rec: Record): Result<seq<string>>
  {
    match rec.tags
    case None => Err(NoSuchNode("/", "tags"))
    case Some(rows) => Ok(rows)
  }

  /** The dictionary comprehension of get_categories, row by row. */
  function CategoryMap(rows: seq<Category>): (m: map<string, string>)
    ensures m.Keys == set i | 0 <= i < |rows| :: rows[i].category
  {
    if |rows| == 0 then map[]
    else
      var last := rows[|rows| - 1];
      var m := CategoryMap(rows[..|rows| - 1]);
      m[last.category := last.value]
  }

  /** get_categories. */
  function GetCategories(rec: Record): Result<map<string, string>>
  {
    match rec.categories
    case None => Err(NoSuchNode("/", "categories"))
    case Some(rows) => Ok(CategoryMap(rows))
  }

  /** When a category repeats, the value of its last row wins. */
  lemma {:induction false} CategoryLastWins(rows: seq<Category>, i: nat)
    requires i < |rows|
    requires forall j :: i < j < |rows| ==> rows[j].category != rows[i].category
    ensures rows[i].category in CategoryMap(rows)
    ensures CategoryMap(rows)[rows[i].category] == rows[i].value
  {
    if i < |rows| - 1 {
      CategoryLastWins(rows[..|rows| - 1], i);
    }
  }

  /** Row i holds the last occurrence of its category. */
  predicate LastOfCategory(rows: seq<Category>, i: nat)
    requires i < |rows|
  {
    forall j :: i < j < |rows| ==> rows[j].category != rows[i].category
  }

  /** get_categories has one key per stored category, mapped to the value
      of its last row; a missing node raises. */
  lemma CategoriesFromRows(rec: Record)
    ensures rec.categories.None? <==> GetCategories(rec) == Err(NoSuchNode("/", "categories"))
    ensures rec.categories.Some? ==> var rows := rec.categories.value;
      && GetCategories(rec).Ok?
      && GetCategories(rec).value.Keys == (set i | 0 <= i < |rows| :: rows[i].category)
      && forall i :: 0 <= i < |rows| && LastOfCategory(rows, i) ==>
           GetCategories(rec).value[rows[i].category] == rows[i].value
  {
    if rec.categories.Some? {
      var rows := rec.categories.value;
      forall i | 0 <= i < |rows| && LastOfCategory(rows, i)
        ensures CategoryMap(rows)[rows[i].category] == rows[i].value
      {
        CategoryLastWins(rows, i);
      }
    }
  }

  /** Index of a column name. */
  function ColumnIndex(columns: seq<string>, name: string): (k: nat)
    requires name in columns
    ensures k < |columns| && columns[k] == name
  {
    if columns[0] == name then 0 else 1 + ColumnIndex(columns[1..], name)
  }

  /** The last row whose k-th value is key: the row that the loop of
      get_member leaves in memberinfo. */
  function LastMatch(rows: seq<seq<string>>, k: nat, key: string): (r: Option<nat>)
    requires forall j :: 0 <= j < |rows| ==> k < |rows[j]|
    ensures r.Some? ==> r.value < |rows| && rows[r.value][k] == key
    ensures r.Some? ==> forall j :: r.value < j < |rows| ==> rows[j][k] != key
    ensures r.None? ==> forall j :: 0 <= j < |rows| ==> rows[j][k] != key
  {
    if |rows| == 0 then None
    else if rows[|rows| - 1][k] == key then Some(|rows| - 1)
    else LastMatch(rows[..|rows| - 1], k, key)
  }

  /** {x: y for x, y in zip(fields, row)} for distinct fields. */
  function RowMap(columns: seq<string>, row: seq<string>): (m: map<string, string>)
    requires |row| == |columns|
    requires forall i, j :: 0 <= i < j < |columns| ==> columns[i] != columns[j]
    ensures m.Keys == set c | c in columns
    ensures forall j :: 0 <= j < |columns| ==> m[columns[j]] == row[j]
  {
    var m := map j | 0 <= j < |columns| :: columns[j] := row[j];
    assert forall c :: c in columns ==> c in m by {
      forall c | c in columns ensures c in m {
        var j := ColumnIndex(columns, c);
        assert columns[j] == c;
      }
    }
    m
  }

  /** The where-condition of get_member. */
  function UuidCondition(uuid: string): string
  {
    "uuid == '" + uuid + "'"
  }

  /** get_member on the members table: the fields of the last row with
      this uuid, None when no row has it; without a uuid column the
      condition refers to no column, which pytables rejects. */
  function MemberInTable(t: Table, uuid: string): Result<Option<map<string, string>>>
  {
    if "uuid" !in t.columns then Err(QueryError(UuidCondition(uuid)))
    else
      match LastMatch(t.rows, ColumnIndex(t.columns, "uuid"), uuid)
      case None => Ok(None)
      case Some(i) => Ok(Some(RowMap(t.columns, t.rows[i])))
  }

  /** get_member. */
  function GetMember(rec: Record, uuid: string): Result<Option<map<string, string>>>
  {
    match rec.members
    case None => Err(NoSuchNode("/", "members"))
    case Some(t) => MemberInTable(t, uuid)
  }

  /** get_member returns the last row carrying the uuid, keyed by exactly
      the table's column names. */
  lemma MemberIsLastRow(t: Table, uuid: string, i: nat)
    requires "uuid" in t.columns && i < |t.rows|
    requires t.rows[i][ColumnIndex(t.columns, "uuid")] == uuid
    requires forall j :: i < j < |t.rows| ==> t.rows[j][ColumnIndex(t.columns, "uuid")] != uuid
    ensures MemberInTable(t, uuid).Ok? && MemberInTable(t, uuid).value.Some?
    ensures MemberInTable(t, uuid).value.value.Keys == set c | c in t.columns
    ensures forall j :: 0 <= j < |t.columns| ==> MemberInTable(t, uuid).value.value[t.columns[j]] == t.rows[i][j]
  {
  }

  /** get_member returns None exactly when no row carries the uuid. */
  lemma MemberAbsent(t: Table, uuid: string)
    requires "uuid" in t.columns
    ensures MemberInTable(t, uuid) == Ok(None)
        <==> forall j :: 0 <= j < |t.rows| ==> t.rows[j][ColumnIndex(t.columns, "uuid")] != uuid
  {
  }

  /** table.read()[name]: one column, in row order. */
  function Column(t: Table, name: string): Result<seq<string>>
  {
    if name !in t.columns then Err(FieldError(name))
    else
      var k := ColumnIndex(t.columns, name);
      Ok(seq(|t.rows|, i requires 0 <= i < |t.rows| => t.rows[i][k]))
  }

  /** A column read whole agrees, row by row, with the field of that row as
      get_member returns it; a missing column is a FieldError. */
  lemma ColumnIsField(t: Table, name: string)
    ensures name !in t.columns <==> Column(t, name) == Err(FieldError(name))
    ensures name in t.columns ==>
      && Column(t, name).Ok? && |Column(t, name).value| == |t.rows|
      && forall i :: 0 <= i < |t.rows| ==> Column(t, name).value[i] == RowMap(t.columns, t.rows[i])[name]
  {
    if name in t.columns {
      var k := ColumnIndex(t.columns, name);
      forall i | 0 <= i < |t.rows| ensures Column(t, name).value[i] == RowMap(t.columns, t.rows[i])[name] {
        assert RowMap(t.columns, t.rows[i])[t.columns[k]] == t.rows[i][k];
      }
    }
  }

  /** get_members: the whole table. */
  function GetMembers(rec: Record): Result<Table>
  {
    match rec.members
    case None => Err(NoSuchNode("/", "members"))
    case Some(t) => Ok(t)
  }

  /** get_members_uuid. */
  function GetMembersUuid(rec: Record): Result<seq<string>>
  {
    match GetMembers(rec)
    case Err(e) => Err(e)
    case Ok(t) => Column(t, "uuid")
  }

  /** get_members_treanttype. */
  function GetMembersTreanttype(rec: Record): Result<seq<string>>
  {
    match GetMembers(rec)
    case Err(e) => Err(e)
    case Ok(t) => Column(t, "treanttype")
  }

  /** get_members_basedir: the columns named by memberpaths, abspath and relCont. */
  function GetMembersBasedir(rec: Record): Result<seq<PathRow>>
  {
    match GetMembers(rec)
    case Err(e) => Err(e)
    case Ok(t) =>
      match Column(t, "abspath")
      case Err(e) => Err(e)
      case Ok(abs) =>
        match Column(t, "relCont")
        case Err(e) => Err(e)
        case Ok(rel) => Ok(seq(|t.rows|, i requires 0 <= i < |t.rows| => PathRow(abs[i], rel[i])))
  }

  /** get_members_basedir gives one PathRow per stored member, in storage
      order, holding that member's abspath and relCont fields; a missing
      node or column raises. */
  lemma BasedirRows(rec: Record)
    ensures rec.members.None? ==> GetMembersBasedir(rec) == Err(NoSuchNode("/", "members"))
    ensures rec.members.Some? ==> var t := rec.members.value;
      && ("abspath" !in t.columns ==> GetMembersBasedir(rec) == Err(FieldError("abspath")))
      && ("abspath" in t.columns && "relCont" !in t.columns ==> GetMembersBasedir(rec) == Err(FieldError("relCont")))
      && ("abspath" in t.columns && "relCont" in t.columns ==>
            && GetMembersBasedir(rec).Ok? && |GetMembersBasedir(rec).value| == |t.rows|
            && forall i :: 0 <= i < |t.rows| ==>
                 GetMembersBasedir(rec).value[i]
                   == PathRow(RowMap(t.columns, t.rows[i])["abspath"], RowMap(t.columns, t.rows[i])["relCont"]))
  {
    if rec.members.Some? {
      var t := rec.members.value;
      ColumnIsField(t, "abspath");
      ColumnIsField(t, "relCont");
    }
  }

  /** get_MDS_version. */
  function GetMdsVersion(rec: Record): Result<string>
  {
    FirstRow(rec.mdsVersion, "mds_version")
  }

  /** get_default: the stored string "None" stands for no default. */
  function GetDefault(rec: Record): Result<Option<string>>
  {
    match FirstRow(rec.default, "default")
    case Err(e) => Err(e)
    case Ok(s) => Ok(if s == "None" then None else Some(s))
  }

  /** get_default never returns the sentinel itself, returns None exactly for the
      sentinel, and returns every other stored string unchanged. */
  lemma DefaultSentinel(rec: Record)
    requires rec.default.Some? && |rec.default.value| > 0
    ensures GetDefault(rec) != Ok(Some("None"))
    ensures GetDefault(rec) == Ok(None) <==> rec.default.value[0] == "None"
    ensures rec.default.value[0] != "None" ==> GetDefault(rec) == Ok(Some(rec.default.value[0]))
  {
  }

  /** How the legacy format stores a default: absent as the string "None". */
  function DefaultRow(d: Option<string>): string
  {
    match d
    case None => "None"
    case Some(s) => s
  }

  /** Storing a default and reading it back gives it back, for every name but "None". */
  lemma DefaultRoundTrip(rec: Record, d: Option<string>)
    requires d != Some("None")
    ensures GetDefault(rec.(default := Some([DefaultRow(d)]))) == Ok(d)
  {
  }

  /** group.__members__: the child names in listing order. */
  function Names<T>(children: seq<Named<T>>): seq<string>
  {
    seq(|children|, i requires 0 <= i < |children| => children[i].name)
  }

  /** get_node(group, name): the first child with that name. */
  function Find<T>(children: seq<Named<T>>, name: string): (r: Option<T>)
    ensures r.None? <==> forall i :: 0 <= i < |children| ==> children[i].name != name
  {
    if |children| == 0 then None
    else if children[0].name == name then Some(children[0].node)
    else Find(children[1..], name)
  }

  /** A name is listed exactly when get_node finds a child by that name. */
  lemma {:induction false} ListedIffFound<T>(children: seq<Named<T>>, name: string)
    ensures name in Names(children) <==> Find(children, name).Some?
    decreases |children|
  {
    if |children| > 0 {
      ListedIffFound(children[1..], name);
      assert Names(children) == [children[0].name] + Names(children[1..]);
    }
  }

  /** In a group, where child names are distinct, every listed name finds its own node. */
  lemma {:induction false} FindListed<T>(children: seq<Named<T>>, i: nat)
    requires i < |children|
    requires forall a, b :: 0 <= a < b < |children| ==> children[a].name != children[b].name
    ensures Find(children, children[i].name) == Some(children[i].node)
  {
    if i > 0 {
      assert children[0].name != children[i].name;
      FindListed(children[1..], i - 1);
    }
  }

  /** list_universes. */
  function ListUniverses(rec: Record): Result<seq<string>>
  {
    match rec.universes
    case None => Err(NoSuchNode("/", "universes"))
    case Some(us) => Ok(Names(us))
  }

  /** The node /universes/<u>, if pytables would find it. */
  function FindUniverse(rec: Record, u: string): Option<Universe>
  {
    match rec.universes
    case None => None
    case Some(us) => Find(us, u)
  }

  function NoUniverseMessage(u: string): string
  {
    "No such universe '" + u + "'; add it first."
  }

  function NoSelectionsMessage(u: string): string
  {
    "No such universe '" + u + "';" + " cannot copy selections."
  }

  function NoSelectionMessage(h: string): string
  {
    "No such selection '" + h + "'; add it first."
  }

  /** get_universe: the topology and trajectory tables, KeyError when either is missing. */
  function GetUniverse(rec: Record, u: string): Result<(seq<PathRow>, seq<PathRow>)>
  {
    match FindUniverse(rec, u)
    case None => Err(KeyError(NoUniverseMessage(u)))
    case Some(x) =>
      if x.topology.None? || x.trajectory.None? then Err(KeyError(NoUniverseMessage(u)))
      else Ok((x.topology.value, x.trajectory.value))
  }

  /** get_resnums: the resnums in row order, None when the node is missing. */
  function GetResnums(rec: Record, u: string): Result<Option<seq<uint32>>>
  {
    match FindUniverse(rec, u)
    case None => Ok(None)
    case Some(x) => Ok(x.resnums)
  }

  /** list_selections. */
  function ListSelections(rec: Record, u: string): Result<seq<string>>
  {
    match FindUniverse(rec, u)
    case None => Err(KeyError(NoSelectionsMessage(u)))
    case Some(x) =>
      match x.selections
      case None => Err(KeyError(NoSelectionsMessage(u)))
      case Some(sels) => Ok(Names(sels))
  }

  /** get_selection: the stored array, unchanged. */
  function GetSelection(rec: Record, u: string, h: string): Result<SelectionArray>
  {
    match FindUniverse(rec, u)
    case None => Err(KeyError(NoSelectionMessage(h)))
    case Some(x) =>
      match x.selections
      case None => Err(KeyError(NoSelectionMessage(h)))
      case Some(sels) =>
        match Find(sels, h)
        case None => Err(KeyError(NoSelectionMessage(h)))
        case Some(a) => Ok(a)
  }

  /** A missing universe is a KeyError for get_universe, list_selections and
      get_selection, and no resnums for get_resnums; a missing topology or
      trajectory node is a KeyError for get_universe, a missing resnums node
      no resnums, and a missing selections group or selection a KeyError. */
  lemma MissingNodes(rec: Record, u: string, h: string)
    ensures FindUniverse(rec, u).None? ==>
      && GetUniverse(rec, u) == Err(KeyError(NoUniverseMessage(u)))
      && ListSelections(rec, u) == Err(KeyError(NoSelectionsMessage(u)))
      && GetSelection(rec, u, h) == Err(KeyError(NoSelectionMessage(h)))
      && GetResnums(rec, u) == Ok(None)
    ensures FindUniverse(rec, u).Some?
              && (FindUniverse(rec, u).value.topology.None? || FindUniverse(rec, u).value.trajectory.None?) ==>
      GetUniverse(rec, u) == Err(KeyError(NoUniverseMessage(u)))
    ensures FindUniverse(rec, u).Some? && FindUniverse(rec, u).value.resnums.None? ==>
      GetResnums(rec, u) == Ok(None)
    ensures FindUniverse(rec, u).Some? && FindUniverse(rec, u).value.selections.None? ==>
      && ListSelections(rec, u) == Err(KeyError(NoSelectionsMessage(u)))
      && GetSelection(rec, u, h) == Err(KeyError(NoSelectionMessage(h)))
    ensures FindUniverse(rec, u).Some? && FindUniverse(rec, u).value.selections.Some?
              && h !in Names(FindUniverse(rec, u).value.selections.value) ==>
      GetSelection(rec, u, h) == Err(KeyError(NoSelectionMessage(h)))
  {
    if FindUniverse(rec, u).Some? && FindUniverse(rec, u).value.selections.Some? {
      ListedIffFound(FindUniverse(rec, u).value.selections.value, h);
    }
  }

  /** get_resnums never raises on an opened file, and gives the stored resnums
      exactly when the universe has them. */
  lemma ResnumsNeverFail(rec: Record, u: string)
    ensures GetResnums(rec, u).Ok?
    ensures GetResnums(rec, u).value.Some? <==>
      FindUniverse(rec, u).Some? && FindUniverse(rec, u).value.resnums.Some?
    ensures GetResnums(rec, u).value.Some? ==> GetResnums(rec, u).value.value == FindUniverse(rec, u).value.resnums.value
  {
  }
}
