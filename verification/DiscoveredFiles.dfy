/** What discovery returns, on the tree, the patterns and the names alone. */
module DiscoveredFiles {
  import opened Foundations
  import opened GlobMatching
  import opened ProjectWalk

  predicate UnderMandatoryExclusion(path: Path) {
    exists segment :: segment in path
                      && (segment == ".git" || segment == ".stateguard" || segment == ".venv" || segment == "venv")
  }

  ghost predicate NamesPython(path: Path) {
    path != [] && exists stem :: path[|path| - 1] == stem + ".py"
  }

  ghost predicate Among(c: Config, path: Path, patterns: seq<seq<string>>) {
    exists pattern :: pattern in patterns && Matches(c.fn, path, pattern)
  }

  /** A Python file that some pattern includes, none excludes, and no mandatory exclusion covers. */
  ghost predicate Wanted(c: Config, path: Path) {
    NamesPython(path) && !UnderMandatoryExclusion(path) && Among(c, path, c.included) && !Among(c, path, c.excluded)
  }

  /** What is reported at a path, given what is there. */
  ghost predicate Reported(c: Config, path: Path, node: Node, code: Code) {
    && !UnderMandatoryExclusion(path)
    && match code
       case SYMLINK_SKIPPED => node.Link? && (NamesPython(path) || !Among(c, path, c.excluded))
       case UNREADABLE_FILE => node == File(Unreadable) && Wanted(c, path)
       case INVALID_SOURCE_ENCODING => node == File(Undecodable) && Wanted(c, path)
       case UNREADABLE_DIRECTORY => node.Directory? && !node.readable
  }

  lemma MandatoryIff(path: Path)
    ensures MandatoryExcluded(path) <==> UnderMandatoryExclusion(path)
  {
    if MandatoryExcluded(path) {
      var i :| 0 <= i < |path| && path[i] in MANDATORY_EXCLUDED;
      assert path[i] in path;
    }
    if segment :| segment in path
                  && (segment == ".git" || segment == ".stateguard" || segment == ".venv" || segment == "venv") {
      var i :| 0 <= i < |path| && path[i] == segment;
      assert path[i] in MANDATORY_EXCLUDED;
    }
  }

  lemma PythonIff(path: Path)
    ensures EndsWithPy(path) <==> NamesPython(path)
  {
    if path != [] {
      var name := path[|path| - 1];
      if EndsWithPy(path) {
        assert name == name[..|name| - 3] + ".py";
      }
      if stem :| name == stem + ".py" {
        assert name[|name| - 3..] == ".py";
      }
    }
  }

  lemma AmongIff(c: Config, path: Path, patterns: seq<seq<string>>)
    ensures MatchesAny(c, path, patterns) <==> Among(c, path, patterns)
  {
    hide Matches, MatchSegments;
    forall pattern
      ensures MatchSegments(c.fn, path, pattern) <==> Matches(c.fn, path, pattern)
    {
      MatchIffCuts(c.fn, path, pattern);
    }
    if MatchesAny(c, path, patterns) {
      var i :| 0 <= i < |patterns| && MatchSegments(c.fn, path, patterns[i]);
      assert patterns[i] in patterns;
    }
    if pattern :| pattern in patterns && Matches(c.fn, path, pattern) {
      var i :| 0 <= i < |patterns| && patterns[i] == pattern;
    }
  }

  lemma WantedIff(c: Config, path: Path)
    ensures Selected(c, path) <==> Wanted(c, path)
  {
    hide EndsWithPy, NamesPython, MandatoryExcluded, UnderMandatoryExclusion, MatchesAny, Among;
    MandatoryIff(path);
    PythonIff(path);
    AmongIff(c, path, c.included);
    AmongIff(c, path, c.excluded);
  }

  lemma ReportedIff(c: Config, path: Path, node: Node, code: Code)
    ensures !MandatoryExcluded(path) && Yields(c, path, node, Diagnostic(path, code)) <==> Reported(c, path, node, code)
  {
    hide EndsWithPy, NamesPython, MandatoryExcluded, UnderMandatoryExclusion, MatchesAny, Among, Selected, Wanted;
    MandatoryIff(path);
    PythonIff(path);
    AmongIff(c, path, c.excluded);
    WantedIff(c, path);
  }

  /** Whatever log the walk keeps: the files are exactly those that are wanted and can be read where they stand in the
      tree, decoded or not; and the diagnostics are exactly those that the tree calls for. */
  lemma DiscoveryExact(c: Config, sourceRoot: Path, root: Node, log: seq<Event>)
    requires UniqueNames(root) && root.Directory? && multiset(log) == Below(c, [], root)
    ensures forall path, decoded :: Snapshot(path, decoded) in Sort(PathLe(sourceRoot), Snapshots(log)) <==>
              Wanted(c, path) && Lookup(root, path) == Some(File(if decoded then Decodable else Undecodable))
    ensures forall event :: event in Sort(PathLe(sourceRoot), Snapshots(log)) ==> event.Snapshot?
    ensures forall path, code :: Diagnostic(path, code) in Sort(DiagnosticLe(sourceRoot), Diagnostics(log)) <==>
              Lookup(root, path).Some? && Reported(c, path, Lookup(root, path).value, code)
  {
    hide Sort, Snapshots, Diagnostics, Below, Lookup, Selected, Wanted, Reported, Yields, MandatoryExcluded,
      UniqueNames;
    SnapshotsAreExact(c, sourceRoot, root, log);
    DiagnosticsAreExact(c, sourceRoot, root, log);
    forall path, decoded
      ensures Snapshot(path, decoded) in Sort(PathLe(sourceRoot), Snapshots(log)) <==>
                Wanted(c, path) && Lookup(root, path) == Some(File(if decoded then Decodable else Undecodable))
    {
      WantedIff(c, path);
    }
    forall path, code
      ensures Diagnostic(path, code) in Sort(DiagnosticLe(sourceRoot), Diagnostics(log)) <==>
                Lookup(root, path).Some? && Reported(c, path, Lookup(root, path).value, code)
    {
      if Lookup(root, path).Some? {
        ReportedIff(c, path, Lookup(root, path).value, code);
      }
    }
  }

  /** Looking up a path one segment further is looking among the entries of the directory found so far. */
  lemma {:induction false} LookupOneFurther(node: Node, path: Path, name: string)
    ensures var at := Lookup(node, path);
            Lookup(node, path + [name])
            == if at.Some? && at.value.Directory? && at.value.readable then Find(at.value.entries, name) else None
    decreases |path|
  {
    if path == [] {
      assert [] + [name] == [name] && [name][1..] == [];
    } else {
      assert (path + [name])[1..] == path[1..] + [name];
      if node.Directory? && node.readable && Find(node.entries, path[0]).Some? {
        LookupOneFurther(Find(node.entries, path[0]).value, path[1..], name);
      }
    }
  }
}
