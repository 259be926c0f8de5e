/** Finding a project's Python files: an explicit-stack walk of the source tree that skips links,
    prunes mandatory-excluded directories and reports what it could not read. A directory is a list of
    entries; reading, decoding and listing either succeed or do not. */
module ProjectWalk {
  import opened Foundations
  import opened GlobMatching
  import Identity

  /** Segments below the source root. */
  type Path = seq<string>

  datatype Content = Unreadable | Undecodable | Decodable

  /** `Other` is neither a link, a directory nor a regular file, or its kind cannot be read. */
  datatype Node = Link | Other | File(content: Content) | Directory(readable: bool, entries: seq<Entry>)

  datatype Entry = Entry(name: string, node: Node)

  datatype Config = Config(fn: SegmentMatch, included: seq<seq<string>>, excluded: seq<seq<string>>)

  const MANDATORY_EXCLUDED := {".git", ".stateguard", ".venv", "venv"}

  predicate MandatoryExcluded(path: Path) {
    exists i :: 0 <= i < |path| && path[i] in MANDATORY_EXCLUDED
  }

  predicate MatchesAny(c: Config, path: Path, patterns: seq<seq<string>>) {
    exists i :: 0 <= i < |patterns| && MatchSegments(c.fn, path, patterns[i])
  }

  predicate EndsWithPy(path: Path) {
    path != [] && var name := path[|path| - 1]; |name| >= 3 && name[|name| - 3..] == ".py"
  }

  predicate Selected(c: Config, path: Path) {
    && EndsWithPy(path) && !MandatoryExcluded(path)
    && MatchesAny(c, path, c.included) && !MatchesAny(c, path, c.excluded)
  }

  datatype Code = INVALID_SOURCE_ENCODING | SYMLINK_SKIPPED | UNREADABLE_DIRECTORY | UNREADABLE_FILE

  /** What the walk does at a path: enter a directory, keep a file, or report. */
  datatype Event =
    | Entered(path: Path)
    | Snapshot(path: Path, decoded: bool)
    | Diagnostic(path: Path, code: Code)

  // ------------------------------------------------------------ the unpruned tree

  function Find(entries: seq<Entry>, name: string): Option<Node> {
    if entries == [] then None
    else if entries[0].name == name then Some(entries[0].node)
    else Find(entries[1..], name)
  }

  /** What is at a path, looking only through readable directories and never through links. */
  function Lookup(node: Node, path: Path): Option<Node>
    decreases |path|
  {
    if path == [] then Some(node)
    else if !node.Directory? || !node.readable then None
    else match Find(node.entries, path[0])
         case Some(n) => Lookup(n, path[1..])
         case None => None
  }

  /** What a node at `path` calls for. */
  predicate Yields(c: Config, path: Path, node: Node, event: Event) {
    match node
    case Other => false
    case Link => event == Diagnostic(path, SYMLINK_SKIPPED) && (EndsWithPy(path) || !MatchesAny(c, path, c.excluded))
    case File(content) =>
      Selected(c, path)
      && (match content
          case Unreadable => event == Diagnostic(path, UNREADABLE_FILE)
          case Undecodable => event == Snapshot(path, false) || event == Diagnostic(path, INVALID_SOURCE_ENCODING)
          case Decodable => event == Snapshot(path, true))
    case Directory(readable, _) =>
      event == Entered(path) || (!readable && event == Diagnostic(path, UNREADABLE_DIRECTORY))
  }

  /** The walk below `base` must produce `event`: filter the unpruned tree by the whole path. */
  predicate Expected(c: Config, base: Path, node: Node, event: Event) {
    && base <= event.path
    && !MandatoryExcluded(event.path)
    && var found := Lookup(node, event.path[|base|..]);
       found.Some? && Yields(c, event.path, found.value, event)
  }

  ghost predicate UniqueNames(node: Node)
    decreases node
  {
    node.Directory? ==>
      && (forall i, j :: 0 <= i < j < |node.entries| ==> node.entries[i].name != node.entries[j].name)
      && (forall e :: e in node.entries ==> '/' !in e.name && e.name != "" && UniqueNames(e.node))
  }

  // ------------------------------------------------------------ what the walk produces

  function PlainEvents(c: Config, path: Path, node: Node): seq<Event> {
    match node
    case Other => []
    case Directory(_, _) => []
    case Link => if EndsWithPy(path) || !MatchesAny(c, path, c.excluded) then [Diagnostic(path, SYMLINK_SKIPPED)]
                 else []
    case File(content) =>
      if !Selected(c, path) then []
      else match content
           case Unreadable => [Diagnostic(path, UNREADABLE_FILE)]
           case Undecodable => [Diagnostic(path, INVALID_SOURCE_ENCODING), Snapshot(path, false)]
           case Decodable => [Snapshot(path, true)]
  }

  /** Everything produced from a pending directory on, pruned as the walk prunes. */
  function Below(c: Config, path: Path, node: Node): multiset<Event>
    decreases node
  {
    if !node.Directory? then multiset{}
    else multiset{Entered(path)}
         + (if node.readable then Among(c, path, node.entries) else multiset{Diagnostic(path, UNREADABLE_DIRECTORY)})
  }

  function FromEntry(c: Config, directory: Path, e: Entry): multiset<Event>
    decreases e
  {
    var path := directory + [e.name];
    if MandatoryExcluded(path) then multiset{}
    else if e.node.Directory? then Below(c, path, e.node)
    else multiset(PlainEvents(c, path, e.node))
  }

  function Among(c: Config, directory: Path, entries: seq<Entry>): multiset<Event>
    decreases entries
  {
    if entries == [] then multiset{}
    else FromEntry(c, directory, entries[0]) + Among(c, directory, entries[1..])
  }

  lemma MandatoryExcludedGrows(path: Path, longer: Path)
    requires path <= longer && MandatoryExcluded(path)
    ensures MandatoryExcluded(longer)
  {
    var i :| 0 <= i < |path| && path[i] in MANDATORY_EXCLUDED;
    assert longer[i] == path[i];
  }

  lemma PlainEventsExact(c: Config, path: Path, node: Node, event: Event)
    requires !node.Directory? && !MandatoryExcluded(path)
    ensures multiset(PlainEvents(c, path, node))[event] == if Expected(c, path, node, event) then 1 else 0
  {
    LeafLookup(node, path, event.path);
  }

  /** Nothing can be looked up below a node that is not a readable directory. */
  lemma LeafLookup(node: Node, path: Path, longer: Path)
    requires !node.Directory? || !node.readable
    ensures path <= longer && longer != path ==> Lookup(node, longer[|path|..]) == None
    ensures path <= longer && longer == path ==> Lookup(node, longer[|path|..]) == Some(node)
  {
    if path <= longer {
      assert longer == path + longer[|path|..];
    }
  }

  /** Pruning a mandatory-excluded directory loses nothing the whole-path filter would keep. */
  lemma {:induction false} BelowExact(c: Config, path: Path, node: Node, event: Event)
    requires UniqueNames(node) && !MandatoryExcluded(path) && node.Directory?
    ensures Below(c, path, node)[event] == if Expected(c, path, node, event) then 1 else 0
    decreases node
  {
    if node.readable {
      AmongExact(c, path, node.entries, event);
      ReadableDirectory(c, path, node, event);
    } else {
      LeafLookup(node, path, event.path);
    }
  }

  /** A readable directory calls for its own entry event and for what its entries call for. */
  lemma ReadableDirectory(c: Config, path: Path, node: Node, event: Event)
    requires !MandatoryExcluded(path) && node.Directory? && node.readable
    ensures Expected(c, path, node, event) <==> event == Entered(path) || ExpectedAmong(c, path, node.entries, event)
    ensures !(event == Entered(path) && ExpectedAmong(c, path, node.entries, event))
  {
    hide MatchesAny, Selected, Find, MandatoryExcluded;
    if path <= event.path && |path| < |event.path| {
      var rest := event.path[|path|..];
      assert rest[0] == event.path[|path|];
      assert rest[1..] == event.path[|path| + 1..];
    } else if path <= event.path {
      assert event.path == path;
    }
  }

  predicate ExpectedAmong(c: Config, directory: Path, entries: seq<Entry>, event: Event) {
    && |directory| < |event.path| && directory <= event.path
    && !MandatoryExcluded(event.path)
    && var found := Find(entries, event.path[|directory|]);
       && found.Some?
       && var leaf := Lookup(found.value, event.path[|directory| + 1..]);
          leaf.Some? && Yields(c, event.path, leaf.value, event)
  }

  lemma {:induction false} FromEntryExact(c: Config, directory: Path, e: Entry, event: Event)
    requires UniqueNames(e.node)
    ensures FromEntry(c, directory, e)[event] == if Expected(c, directory + [e.name], e.node, event) then 1 else 0
    decreases e
  {
    var path := directory + [e.name];
    if MandatoryExcluded(path) {
      if path <= event.path { MandatoryExcludedGrows(path, event.path); }
    } else if e.node.Directory? {
      BelowExact(c, path, e.node, event);
    } else {
      PlainEventsExact(c, path, e.node, event);
    }
  }

  lemma {:induction false} AmongExact(c: Config, directory: Path, entries: seq<Entry>, event: Event)
    requires forall i, j :: 0 <= i < j < |entries| ==> entries[i].name != entries[j].name
    requires forall e :: e in entries ==> UniqueNames(e.node)
    ensures Among(c, directory, entries)[event] == if ExpectedAmong(c, directory, entries, event) then 1 else 0
    decreases entries
  {
    if entries != [] {
      var e := entries[0];
      assert entries == [e] + entries[1..];
      FromEntryExact(c, directory, e, event);
      AmongExact(c, directory, entries[1..], event);
      var path := directory + [e.name];
      assert path <= event.path <==> directory <= event.path && |directory| < |event.path|
                                     && event.path[|directory|] == e.name;
      NotFoundLater(entries, e.name);
    }
  }

  lemma {:induction false} NotFoundLater(entries: seq<Entry>, name: string)
    requires entries != [] && entries[0].name == name
    requires forall i, j :: 0 <= i < j < |entries| ==> entries[i].name != entries[j].name
    ensures Find(entries[1..], name) == None
  {
    FindNothing(entries[1..], name);
  }

  lemma {:induction false} FindNothing(entries: seq<Entry>, name: string)
    requires forall e :: e in entries ==> e.name != name
    ensures Find(entries, name) == None
  {
    if entries != [] {
      FindNothing(entries[1..], name);
    }
  }

  // ------------------------------------------------------------ the order of a listing does not matter

  predicate NameLe(a: Entry, b: Entry) { StringLe(a.name, b.name) }

  lemma {:induction false} AmongInserted(c: Config, directory: Path, e: Entry, entries: seq<Entry>)
    ensures Among(c, directory, Insert(NameLe, e, entries)) == FromEntry(c, directory, e) + Among(c, directory, entries)
  {
    var r := Insert(NameLe, e, entries);
    if entries == [] || NameLe(e, entries[0]) {
      assert r[1..] == entries;
    } else {
      assert r[1..] == Insert(NameLe, e, entries[1..]);
      AmongInserted(c, directory, e, entries[1..]);
    }
  }

  lemma {:induction false} AmongSorted(c: Config, directory: Path, entries: seq<Entry>)
    ensures Among(c, directory, Sort(NameLe, entries)) == Among(c, directory, entries)
  {
    if entries != [] {
      AmongSorted(c, directory, entries[1..]);
      AmongInserted(c, directory, entries[0], Sort(NameLe, entries[1..]));
    }
  }

  lemma {:induction false} AmongAppend(c: Config, directory: Path, entries: seq<Entry>, e: Entry)
    ensures Among(c, directory, entries + [e]) == Among(c, directory, entries) + FromEntry(c, directory, e)
  {
    if entries == [] {
      assert ([] + [e])[1..] == [];
    } else {
      assert (entries + [e])[1..] == entries[1..] + [e];
      AmongAppend(c, directory, entries[1..], e);
    }
  }

  // ------------------------------------------------------------ the work list

  datatype Pending = Pending(path: Path, node: Node)

  function Backlog(c: Config, pending: seq<Pending>): multiset<Event> {
    if pending == [] then multiset{}
    else Backlog(c, pending[..|pending| - 1]) + Below(c, pending[|pending| - 1].path, pending[|pending| - 1].node)
  }

  function Reversed(pending: seq<Pending>): seq<Pending> {
    if pending == [] then [] else [pending[|pending| - 1]] + Reversed(pending[..|pending| - 1])
  }

  lemma {:induction false} BacklogConcat(c: Config, a: seq<Pending>, b: seq<Pending>)
    ensures Backlog(c, a + b) == Backlog(c, a) + Backlog(c, b)
  {
    if b == [] {
      assert a + b == a;
    } else {
      assert (a + b)[..|a + b| - 1] == a + b[..|b| - 1];
      BacklogConcat(c, a, b[..|b| - 1]);
    }
  }

  lemma {:induction false} BacklogReversed(c: Config, pending: seq<Pending>)
    ensures Backlog(c, Reversed(pending)) == Backlog(c, pending)
    ensures forall p :: p in Reversed(pending) ==> p in pending
  {
    if pending != [] {
      var last, rest := pending[|pending| - 1], pending[..|pending| - 1];
      BacklogReversed(c, rest);
      BacklogConcat(c, [last], Reversed(rest));
      assert Backlog(c, [last]) == Below(c, last.path, last.node) by { assert [last][..0] == []; }
    }
  }

  function Snapshots(log: seq<Event>): seq<Event> { Filter((e: Event) => e.Snapshot?, log) }

  function Diagnostics(log: seq<Event>): seq<Event> { Filter((e: Event) => e.Diagnostic?, log) }

  lemma BacklogAppend(c: Config, pending: seq<Pending>, p: Pending)
    ensures Backlog(c, pending + [p]) == Backlog(c, pending) + Below(c, p.path, p.node)
  {
    assert (pending + [p])[..|pending|] == pending;
  }

  predicate Visitable(pending: seq<Pending>) {
    forall p :: p in pending ==> p.node.Directory? && p.path != []
  }

  lemma NothingPending(c: Config, directory: Path)
    ensures Backlog(c, []) == multiset{} && Among(c, directory, []) == multiset{}
  {
  }

  lemma FromEntryCases(c: Config, directory: Path, e: Entry)
    ensures var path := directory + [e.name];
            FromEntry(c, directory, e)
            == if MandatoryExcluded(path) then multiset{}
               else if e.node.Directory? then Below(c, path, e.node) else multiset(PlainEvents(c, path, e.node))
  {
  }

  /** The entries of one directory, in name order: their events, and the directories to visit next. */
  method ScanEntries(c: Config, directory: Path, entries: seq<Entry>)
    returns (events: seq<Event>, children: seq<Pending>)
    ensures multiset(events) + Backlog(c, children) == Among(c, directory, entries)
    ensures Visitable(children)
  {
    hide Among, Backlog, Below, PlainEvents, Sort, MandatoryExcluded, FromEntry;
    events, children := [], [];
    var sorted := Sort(NameLe, entries);
    NothingPending(c, directory);
    for i := 0 to |sorted|
      invariant multiset(events) + Backlog(c, children) == Among(c, directory, sorted[..i])
      invariant Visitable(children)
    {
      var entry := sorted[i];
      var path := directory + [entry.name];
      assert sorted[..i + 1] == sorted[..i] + [entry];
      AmongAppend(c, directory, sorted[..i], entry);
      FromEntryCases(c, directory, entry);
      if !MandatoryExcluded(path) {
        if entry.node.Directory? {
          BacklogAppend(c, children, Pending(path, entry.node));
          children := children + [Pending(path, entry.node)];
        } else {
          events := events + PlainEvents(c, path, entry.node);
        }
      }
    }
    assert sorted[..|sorted|] == sorted;
    AmongSorted(c, directory, entries);
  }

  method VisitDirectory(c: Config, directory: Pending) returns (events: seq<Event>, children: seq<Pending>)
    requires directory.node.Directory?
    ensures multiset(events) + Backlog(c, children) == Below(c, directory.path, directory.node)
    ensures events != [] && Visitable(children)
  {
    if directory.node.readable {
      events, children := ScanEntries(c, directory.path, directory.node.entries);
      events := [Entered(directory.path)] + events;
    } else {
      events, children := [Entered(directory.path), Diagnostic(directory.path, UNREADABLE_DIRECTORY)], [];
    }
  }

  // ------------------------------------------------------------ the sorted result

  /** A path as it is recorded: relative to the repository root, with slashes. */
  function Recorded(sourceRoot: Path, path: Path): string {
    Identity.Join('/', sourceRoot + path)
  }

  function CodeText(code: Code): string {
    match code
    case INVALID_SOURCE_ENCODING => "INVALID_SOURCE_ENCODING"
    case SYMLINK_SKIPPED => "SYMLINK_SKIPPED"
    case UNREADABLE_DIRECTORY => "UNREADABLE_DIRECTORY"
    case UNREADABLE_FILE => "UNREADABLE_FILE"
  }

  function PathLe(sourceRoot: Path): (Event, Event) -> bool {
    (a: Event, b: Event) => StringLe(Recorded(sourceRoot, a.path), Recorded(sourceRoot, b.path))
  }

  function DiagnosticPlace(sourceRoot: Path, e: Event): seq<string> {
    [Recorded(sourceRoot, e.path), if e.Diagnostic? then CodeText(e.code) else ""]
  }

  function DiagnosticLe(sourceRoot: Path): (Event, Event) -> bool {
    ByTuple((e: Event) => DiagnosticPlace(sourceRoot, e))
  }

  datatype Discovery = Fatal | Found(snapshots: seq<Event>, diagnostics: seq<Event>)

  method DiscoverPythonFiles(c: Config, sourceRoot: Path, root: Node) returns (r: Discovery)
    ensures r.Fatal? <==> !root.Directory? || !root.readable
    ensures r.Found? ==> exists log :: multiset(log) == Below(c, [], root)
                                       && r.snapshots == Sort(PathLe(sourceRoot), Snapshots(log))
                                       && r.diagnostics == Sort(DiagnosticLe(sourceRoot), Diagnostics(log))
  {
    if !root.Directory? {
      return Fatal;
    }
    if !root.readable {
      return Fatal;
    }
    var snapshots, diagnostics: seq<Event> := [], [];
    ghost var log: seq<Event> := [];
    var pending := [Pending([], root)];
    BacklogAppend(c, [], Pending([], root));
    while pending != []
      invariant multiset(log) + Backlog(c, pending) == Below(c, [], root)
      invariant snapshots == Snapshots(log) && diagnostics == Diagnostics(log)
      invariant forall p :: p in pending ==> p.node.Directory?
      decreases |Backlog(c, pending)|
    {
      var directory := pending[|pending| - 1];
      pending := pending[..|pending| - 1];
      var events, children := VisitDirectory(c, directory);
      FilterAppend((e: Event) => e.Snapshot?, log, events);
      FilterAppend((e: Event) => e.Diagnostic?, log, events);
      log := log + events;
      snapshots := snapshots + Snapshots(events);
      diagnostics := diagnostics + Diagnostics(events);
      BacklogConcat(c, pending, Reversed(children));
      BacklogReversed(c, children);
      assert |multiset(events)| > 0;
      pending := pending + Reversed(children);
    }
    r := Found(Sort(PathLe(sourceRoot), snapshots), Sort(DiagnosticLe(sourceRoot), diagnostics));
  }

  // ------------------------------------------------------------ what was discovered

  ghost predicate Portable(path: Path) {
    forall i :: 0 <= i < |path| ==> '/' !in path[i]
  }

  lemma {:induction false} FoundIsPortable(entries: seq<Entry>, name: string)
    requires Find(entries, name).Some?
    ensures exists e :: e in entries && e.name == name && e.node == Find(entries, name).value
  {
    if entries[0].name == name {
      assert entries[0] in entries;
    } else {
      FoundIsPortable(entries[1..], name);
      var e :| e in entries[1..] && e.name == name && e.node == Find(entries, name).value;
      assert e in entries;
    }
  }

  lemma {:induction false} LookupIsPortable(node: Node, path: Path)
    requires UniqueNames(node) && Lookup(node, path).Some?
    ensures Portable(path)
    decreases |path|
  {
    if path != [] {
      FoundIsPortable(node.entries, path[0]);
      LookupIsPortable(Find(node.entries, path[0]).value, path[1..]);
      assert path == [path[0]] + path[1..];
    }
  }

  lemma RecordedInjective(sourceRoot: Path, a: Path, b: Path)
    requires Portable(sourceRoot) && Portable(a) && Portable(b) && a != [] && b != []
    requires Recorded(sourceRoot, a) == Recorded(sourceRoot, b)
    ensures a == b
  {
    Identity.JoinInjective('/', sourceRoot + a, sourceRoot + b);
    assert a == (sourceRoot + a)[|sourceRoot|..] && b == (sourceRoot + b)[|sourceRoot|..];
  }

  /** Every expected event is in the log exactly once, and nothing else is. */
  lemma LogIsExact(c: Config, root: Node, log: seq<Event>)
    requires UniqueNames(root) && root.Directory? && multiset(log) == Below(c, [], root)
    ensures NoDuplicates(log)
    ensures forall event :: event in log <==> Expected(c, [], root, event)
  {
    forall event
      ensures multiset(log)[event] == if Expected(c, [], root, event) then 1 else 0
    {
      BelowExact(c, [], root, event);
    }
    NoDuplicatesIffMultiplicities(log);
    forall event
      ensures event in log <==> Expected(c, [], root, event)
    {
      assert event in log <==> event in multiset(log);
    }
  }

  lemma PathLeIsPreorder(sourceRoot: Path)
    ensures TotalPreorder(PathLe(sourceRoot))
  {
    forall a: Event, b: Event { StringLeTotal(Recorded(sourceRoot, a.path), Recorded(sourceRoot, b.path)); }
    forall a: Event, b: Event, c: Event | PathLe(sourceRoot)(a, b) && PathLe(sourceRoot)(b, c) {
      StringLeTransitive(Recorded(sourceRoot, a.path), Recorded(sourceRoot, b.path), Recorded(sourceRoot, c.path));
    }
  }

  /** A file's snapshot is expected exactly when the path names a readable, selected regular file. */
  lemma ExpectedSnapshot(c: Config, root: Node, path: Path, decoded: bool)
    ensures Expected(c, [], root, Snapshot(path, decoded)) <==>
              Selected(c, path) && Lookup(root, path) == Some(File(if decoded then Decodable else Undecodable))
  {
    assert path[0..] == path;
  }

  /** The discovered files: every regular, readable, selected file with no link and no unreadable
      directory above it, exactly once. */
  lemma SnapshotsAreExact(c: Config, sourceRoot: Path, root: Node, log: seq<Event>)
    requires UniqueNames(root) && root.Directory? && multiset(log) == Below(c, [], root)
    ensures var snapshots := Sort(PathLe(sourceRoot), Snapshots(log));
            && NoDuplicates(snapshots)
            && (forall event :: event in snapshots <==>
                  event.Snapshot? && Selected(c, event.path)
                  && Lookup(root, event.path) == Some(File(if event.decoded then Decodable else Undecodable)))
  {
    var kept, le := Snapshots(log), PathLe(sourceRoot);
    LogIsExact(c, root, log);
    FilterNoDuplicates((e: Event) => e.Snapshot?, log);
    SortPermutes(le, kept);
    PermutationMembers(Sort(le, kept), kept);
    PermutationNoDuplicates(kept, Sort(le, kept));
    forall event
      ensures event in Sort(le, kept) <==>
                event.Snapshot? && Selected(c, event.path)
                && Lookup(root, event.path) == Some(File(if event.decoded then Decodable else Undecodable))
    {
      FilterMember((e: Event) => e.Snapshot?, log, event);
      if event.Snapshot? {
        ExpectedSnapshot(c, root, event.path, event.decoded);
        assert event == Snapshot(event.path, event.decoded);
      }
    }
  }

  /** They come in strictly increasing order of their recorded paths. */
  lemma SnapshotsAreStrictlySorted(c: Config, sourceRoot: Path, root: Node, log: seq<Event>)
    requires UniqueNames(root) && root.Directory? && multiset(log) == Below(c, [], root) && Portable(sourceRoot)
    ensures var snapshots := Sort(PathLe(sourceRoot), Snapshots(log));
            forall i, j :: 0 <= i < j < |snapshots| ==>
              && StringLe(Recorded(sourceRoot, snapshots[i].path), Recorded(sourceRoot, snapshots[j].path))
              && Recorded(sourceRoot, snapshots[i].path) != Recorded(sourceRoot, snapshots[j].path)
  {
    var le, snapshots := PathLe(sourceRoot), Sort(PathLe(sourceRoot), Snapshots(log));
    SnapshotsAreExact(c, sourceRoot, root, log);
    PathLeIsPreorder(sourceRoot);
    SortSorts(le, Snapshots(log));
    forall i, j | 0 <= i < j < |snapshots|
      ensures le(snapshots[i], snapshots[j])
      ensures Recorded(sourceRoot, snapshots[i].path) != Recorded(sourceRoot, snapshots[j].path)
    {
      DistinctRecords(c, sourceRoot, root, snapshots[i], snapshots[j]);
    }
  }

  lemma DistinctRecords(c: Config, sourceRoot: Path, root: Node, a: Event, b: Event)
    requires UniqueNames(root) && Portable(sourceRoot) && a.Snapshot? && b.Snapshot? && a != b
    requires forall e :: e == a || e == b ==>
               Selected(c, e.path) && Lookup(root, e.path) == Some(File(if e.decoded then Decodable else Undecodable))
    ensures Recorded(sourceRoot, a.path) != Recorded(sourceRoot, b.path)
  {
    if Recorded(sourceRoot, a.path) == Recorded(sourceRoot, b.path) {
      LookupIsPortable(root, a.path);
      LookupIsPortable(root, b.path);
      RecordedInjective(sourceRoot, a.path, b.path);
    }
  }

  /** The diagnostics: exactly what the unpruned tree, filtered by path, calls for, each once, by path and
      then by code. */
  lemma DiagnosticsAreExact(c: Config, sourceRoot: Path, root: Node, log: seq<Event>)
    requires UniqueNames(root) && root.Directory? && multiset(log) == Below(c, [], root)
    ensures var diagnostics := Sort(DiagnosticLe(sourceRoot), Diagnostics(log));
            && NoDuplicates(diagnostics)
            && (forall i, j :: 0 <= i < j < |diagnostics| ==>
                  TupleLe(DiagnosticPlace(sourceRoot, diagnostics[i]), DiagnosticPlace(sourceRoot, diagnostics[j])))
            && (forall path, code :: Diagnostic(path, code) in diagnostics <==>
                  !MandatoryExcluded(path) && Lookup(root, path).Some?
                  && Yields(c, path, Lookup(root, path).value, Diagnostic(path, code)))
  {
    var kept, le := Diagnostics(log), DiagnosticLe(sourceRoot);
    LogIsExact(c, root, log);
    ByTupleIsPreorder((e: Event) => DiagnosticPlace(sourceRoot, e));
    SortSorts(le, kept);
    assert forall i, j :: 0 <= i < j < |Sort(le, kept)| ==> le(Sort(le, kept)[i], Sort(le, kept)[j]);
    FilterNoDuplicates((e: Event) => e.Diagnostic?, log);
    SortPermutes(le, kept);
    PermutationMembers(Sort(le, kept), kept);
    PermutationNoDuplicates(kept, Sort(le, kept));
    forall path, code
      ensures Diagnostic(path, code) in Sort(le, kept) <==> Expected(c, [], root, Diagnostic(path, code))
      ensures path[0..] == path
    {
      FilterMember((e: Event) => e.Diagnostic?, log, Diagnostic(path, code));
    }
  }
}
