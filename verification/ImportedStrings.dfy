/** A program of several modules, where its canonical names lead, and strings read through other modules: what
    the resolver finds against what execution of the whole program reads. */
module ImportedStrings {
  import opened Foundations
  import opened NameResolution

  /** A collected application or router. */
  type Instance = string

  datatype Program = Program(modules: map<string, Module>, instances: map<(string, string, Position), Instance>)

  /** A module and what is read in it. */
  datatype Entry = Entry(moduleName: string, name: string)

  /** `lstrip(".")`. */
  function StripDots(s: string): string {
    if s != "" && s[0] == '.' then StripDots(s[1..]) else s
  }

  /** The longest module name that `qualified` extends by a dot. */
  function OwningModule(modules: map<string, Module>, qualified: string, k: nat): (r: Option<string>)
    requires k <= |qualified|
    ensures r.Some? ==> r.value in modules && r.value + "." <= qualified
  {
    if k == 0 then None
    else if qualified[k - 1] == '.' && qualified[..k - 1] in modules then
      assert qualified[..k - 1] + "." == qualified[..k];
      Some(qualified[..k - 1])
    else OwningModule(modules, qualified, k - 1)
  }

  /** No module of longer name would do. */
  lemma {:induction false} OwnerIsLongest(modules: map<string, Module>, qualified: string, k: nat)
    requires k <= |qualified|
    ensures forall name :: name in modules && name + "." <= qualified[..k] ==>
              var r := OwningModule(modules, qualified, k); r.Some? && |name| <= |r.value|
  {
    if k > 0 {
      OwnerIsLongest(modules, qualified, k - 1);
      forall name | name in modules && name + "." <= qualified[..k]
        ensures OwningModule(modules, qualified, k).Some? && |name| <= |OwningModule(modules, qualified, k).value|
      {
        DottedPrefix(qualified, name, k);
      }
    }
  }

  lemma DottedPrefix(qualified: string, name: string, k: nat)
    requires 0 < k <= |qualified| && name + "." <= qualified[..k]
    ensures if |name| == k - 1 then qualified[k - 1] == '.' && name == qualified[..k - 1]
            else name + "." <= qualified[..k - 1]
  {
    var dotted := name + ".";
    assert dotted[|name|] == '.' && dotted[..|name|] == name;
    assert dotted == qualified[..k][..|dotted|] == qualified[..|dotted|];
    assert dotted[..|name|] == qualified[..|name|];
  }

  /** The longest module that a canonical name goes through, and what it names from there on. */
  function Owned(p: Program, qualified: string): (e: Option<Entry>)
    ensures e.Some? ==> e.value.moduleName in p.modules
  {
    match OwningModule(p.modules, qualified, |qualified|)
    case None => None
    case Some(owner) =>
      var suffix := StripDots(qualified[|owner|..]);
      if suffix == "" then None else Some(Entry(owner, suffix))
  }

  /** A name in a module leads into that module, unless it goes through a longer one. */
  lemma OwnedByLongest(p: Program, owner: string, name: string)
    requires owner in p.modules && name != "" && name[0] != '.'
    requires forall m :: m in p.modules && m + "." <= owner + "." + name ==> |m| <= |owner|
    ensures Owned(p, owner + "." + name) == Some(Entry(owner, name))
  {
    hide OwningModule;
    var q := owner + "." + name;
    OwnerIsLongest(p.modules, q, |q|);
    assert q[..|q|] == q && owner + "." <= q;
    var found := OwningModule(p.modules, q, |q|).value;
    assert |found| == |owner| && found + "." <= q;
    assert found == (found + ".")[..|found|] == q[..|found|] == owner;
    assert q[|owner|..] == "." + name && ("." + name)[1..] == name;
    assert StripDots(name) == name;
  }

  /** Where the resolver takes a canonical name to lead: only to something directly inside a known module. */
  function Target(p: Program, qualified: string): (e: Option<Entry>)
    ensures e.Some? ==> e.value.moduleName in p.modules && '.' !in e.value.name
  {
    match Owned(p, qualified)
    case None => None
    case Some(e) => if '.' in e.name then None else Some(e)
  }

  /** A string constant imported from another module: only a literal in its latest binding counts. */
  function ImportedString(p: Program, canonical: string): Option<string> {
    if canonical in p.modules then None
    else
      match Target(p, canonical)
      case None => None
      case Some(e) =>
        match LatestBinding(p.modules[e.moduleName].bindings, e.name, None)
        case None => None
        case Some(b) => b.text
  }

  // ------------------------------------------------------------ strings of a whole program

  ghost predicate WellFormed(p: Program) {
    forall m :: m in p.modules ==> InOrder(p.modules[m].bindings) && PlainNames(p.modules[m].bindings)
  }

  /** When a module has run, it holds the names that it assigns or imports; functions and classes hold no
      strings here. */
  predicate Holds(m: Module, name: string) {
    LatestBinding(m.bindings, name, None).Some? || AliasOf(m.chain, name).Some?
  }

  /** What reading a canonical name yields when the other modules are executed too, through at most `depth`
      modules: a name the owning module holds, or an attribute of one. */
  function Executed(p: Program, canonical: string, depth: nat): Option<string>
    decreases depth
  {
    if depth == 0 || canonical in p.modules then None
    else
      match Owned(p, canonical)
      case None => None
      case Some(e) =>
        var m := p.modules[e.moduleName];
        var imported := (c: string) => Executed(p, c, depth - 1);
        if !Holds(m, PartitionDot(e.name).head) then None
        else TextOf(m, imported, Execute(m, imported, m.bindings).current, e.name)
  }

  /** Where one module leads the reading of a canonical name: to a value, or on to another canonical name. It
      is read off the bindings and the aliases, with nothing executed and nothing imported. */
  datatype Landing = LandsAt(text: Option<string>) | LeadsTo(canonical: string)

  function Landed(p: Program, canonical: string): Landing {
    if canonical in p.modules then LandsAt(None)
    else
      match Owned(p, canonical)
      case None => LandsAt(None)
      case Some(e) => LandedIn(p.modules[e.moduleName], e.name)
  }

  /** The same for a reference read when the module has run. */
  function LandedIn(m: Module, reference: string): Landing {
    var parts := PartitionDot(reference);
    match LatestBinding(m.bindings, parts.head, None)
    case None => if Holds(m, parts.head) then LeadsTo(Canonicalize(m.chain, reference)) else LandsAt(None)
    case Some(b) =>
      if parts.dotted then
        if b.reference.None? then LandsAt(None)
        else Named(QualifiedName(m, Rejoin(b.reference.value, parts), b.position))
      else if b.text.Some? || b.reference.None? then LandsAt(b.text)
      else Led(m, EndOf(m, b.reference.value, b.position))
  }

  function Led(m: Module, end: TextEnd): Landing {
    match end
    case AtValue(text) => LandsAt(text)
    case AtReference(reference, position) => Named(QualifiedName(m, reference, position))
  }

  function Named(name: Option<string>): Landing {
    match name
    case Some(q) => LeadsTo(q)
    case None => LandsAt(None)
  }

  /** A chain of canonical names, each leading to the next, the last to a string. */
  ghost predicate StringChain(p: Program, names: seq<string>, text: string) {
    && names != []
    && (forall k :: 0 <= k < |names| - 1 ==> Landed(p, names[k]) == LeadsTo(names[k + 1]))
    && Landed(p, names[|names| - 1]) == LandsAt(Some(text))
  }

  /** From the name such a chain leads through at most `depth` modules. */
  ghost predicate Leads(p: Program, canonical: string, depth: nat, text: string) {
    exists names :: StringChain(p, names, text) && names[0] == canonical && |names| <= depth
  }

  /** The one case the resolver follows: the latest binding of the name, in the module it leads to, is a string
      literal. */
  ghost predicate LiteralAt(p: Program, canonical: string, text: string) {
    && canonical !in p.modules && Target(p, canonical).Some?
    && var e := Target(p, canonical).value;
       var b := LatestBinding(p.modules[e.moduleName].bindings, e.name, None);
       b.Some? && b.value.text == Some(text)
  }

  lemma ChainStep(p: Program, canonical: string, depth: nat, text: string)
    ensures Leads(p, canonical, depth, text)
       <==> depth > 0 && match Landed(p, canonical)
                         case LandsAt(t) => t == Some(text)
                         case LeadsTo(q) => Leads(p, q, depth - 1, text)
  {
    hide Landed;
    if names :| StringChain(p, names, text) && names[0] == canonical && |names| <= depth {
      if |names| > 1 {
        assert StringChain(p, names[1..], text) && names[1..][0] == names[1];
      }
    }
    match Landed(p, canonical)
    case LandsAt(t) =>
      if depth > 0 && t == Some(text) {
        assert StringChain(p, [canonical], text);
      }
    case LeadsTo(q) =>
      if depth > 0 && Leads(p, q, depth - 1, text) {
        var names :| StringChain(p, names, text) && names[0] == q && |names| <= depth - 1;
        var longer := [canonical] + names;
        assert forall k :: 0 < k < |longer| ==> longer[k] == names[k - 1];
        assert StringChain(p, longer, text);
      }
  }

  /** One module of execution is one landing. */
  lemma ExecutedStep(p: Program, canonical: string, depth: nat)
    requires WellFormed(p) && depth > 0
    ensures Executed(p, canonical, depth) == match Landed(p, canonical)
                                             case LandsAt(text) => text
                                             case LeadsTo(q) => Executed(p, q, depth - 1)
  {
    hide Owned, LandedIn, Holds, TextOf, Execute;
    if canonical !in p.modules && Owned(p, canonical).Some? {
      var e := Owned(p, canonical).value;
      FinalText(p.modules[e.moduleName], (c: string) => Executed(p, c, depth - 1), e.name);
    }
  }

  /** The text a reference has when its module has run. */
  lemma FinalText(m: Module, imported: string -> Option<string>, reference: string)
    requires InOrder(m.bindings) && PlainNames(m.bindings)
    ensures (if Holds(m, PartitionDot(reference).head)
             then TextOf(m, imported, Execute(m, imported, m.bindings).current, reference) else None)
         == match LandedIn(m, reference)
            case LandsAt(text) => text
            case LeadsTo(q) => imported(q)
  {
    hide Canonicalize, EndOf, QualifiedName, NameOf, Execute, LatestBinding;
    var parts, env := PartitionDot(reference), Execute(m, imported, m.bindings).current;
    assert m.bindings[..|m.bindings|] == m.bindings;
    ExecutionBindsLatest(m, imported, |m.bindings|, parts.head);
    match LatestBinding(m.bindings, parts.head, None)
    case None => UnboundName(m, env, reference);
    case Some(b) =>
      if b.reference.Some? && parts.dotted {
        BoundAttribute(m, imported, env, reference, b);
      } else if b.reference.Some? && b.text.None? {
        var end := EndOf(m, b.reference.value, b.position);
        TextOfIsEndText(m, imported, b.reference.value, b.position);
        if end.AtReference? {
          QualifiedNameIsExecution(m, imported, end.reference, end.position);
        }
      } else if b.reference.None? {
        BoundToNoName(m, env, reference);
      }
  }

  lemma UnboundName(m: Module, env: Environment, reference: string)
    requires PartitionDot(reference).head !in env
    ensures NameOf(m, env, reference) == Some(Canonicalize(m.chain, reference))
  {
  }

  lemma BoundToNoName(m: Module, env: Environment, reference: string)
    requires PartitionDot(reference).head in env && env[PartitionDot(reference).head].name.None?
    ensures NameOf(m, env, reference) == None
  {
  }

  /** An attribute of a name that is bound to a reference has that reference's name, with the tail rejoined. */
  lemma BoundAttribute(m: Module, imported: string -> Option<string>, env: Environment, reference: string, b: Binding)
    requires InOrder(m.bindings) && b.reference.Some? && PartitionDot(reference).dotted
    requires PartitionDot(reference).head in env
    requires env[PartitionDot(reference).head] == Evaluate(m, imported, EnvironmentAt(m, imported, b.position), b)
    ensures NameOf(m, env, reference)
         == QualifiedName(m, Rejoin(b.reference.value, PartitionDot(reference)), b.position)
  {
    hide Canonicalize, QualifiedName, LatestBinding, EnvironmentAt, TextOf, PartitionDot;
    var parts := PartitionDot(reference);
    QualifiedNameIsExecution(m, imported, Rejoin(b.reference.value, parts), b.position);
    NameOfKeepsTail(m, EnvironmentAt(m, imported, b.position), b.reference.value, parts.tail);
  }

  /** Execution imports a string exactly where a chain of names leads to it. */
  lemma {:induction false} ExecutedIffLeads(p: Program, canonical: string, depth: nat, text: string)
    requires WellFormed(p)
    ensures Executed(p, canonical, depth) == Some(text) <==> Leads(p, canonical, depth, text)
    decreases depth
  {
    hide Landed, Leads, Executed, WellFormed;
    ChainStep(p, canonical, depth, text);
    if depth == 0 {
      NothingExecuted(p, canonical);
    } else {
      ExecutedStep(p, canonical, depth);
      match Landed(p, canonical)
      case LandsAt(_) =>
      case LeadsTo(q) => ExecutedIffLeads(p, q, depth - 1, text);
    }
  }

  lemma NothingExecuted(p: Program, canonical: string)
    ensures Executed(p, canonical, 0) == None
  {
  }

  lemma ImportedIffLiteral(p: Program, canonical: string, text: string)
    ensures ImportedString(p, canonical) == Some(text) <==> LiteralAt(p, canonical, text)
    ensures LiteralAt(p, canonical, text) ==> Landed(p, canonical) == LandsAt(Some(text))
  {
    hide Owned, LatestBinding, Canonicalize, QualifiedName, EndOf;
    if Target(p, canonical).Some? {
      PlainPartition(Target(p, canonical).value.name);
    }
  }

  /** A string the resolver imports is the one execution imports; and execution imports one the resolver does
      not exactly when a chain of names leads to a string and the latest binding of the first is no literal:
      it is bound through a further name, it is re-exported without a binding, or it is an attribute of a name
      that its module holds. */
  lemma ImportedStringIsExecuted(p: Program, canonical: string, depth: nat)
    requires WellFormed(p) && depth > 0
    ensures ImportedString(p, canonical).Some? ==> Executed(p, canonical, depth) == ImportedString(p, canonical)
    ensures ImportedString(p, canonical) != Executed(p, canonical, depth)
       <==> (exists text :: Leads(p, canonical, depth, text)) && forall text :: !LiteralAt(p, canonical, text)
  {
    hide ImportedString, Executed, LiteralAt, Leads, Landed;
    forall text
      ensures Executed(p, canonical, depth) == Some(text) <==> Leads(p, canonical, depth, text)
      ensures ImportedString(p, canonical) == Some(text) <==> LiteralAt(p, canonical, text)
      ensures LiteralAt(p, canonical, text) ==> Leads(p, canonical, depth, text)
    {
      ExecutedIffLeads(p, canonical, depth, text);
      ImportedIffLiteral(p, canonical, text);
      ChainStep(p, canonical, depth, text);
    }
  }

  /** What the reference at the end of a chain is called where it is written, and what it then stands for. */
  function Meant(m: Module, end: TextEnd): Option<string>
    requires end.AtReference?
  {
    QualifiedName(m, end.reference, end.position)
  }

  /** A call's argument read in one module of a program, against execution of the program: the two agree exactly
      when the argument is no reference, or its chain inside the module ends at a value, or the name as it is
      written has the literal that a chain of names from what it stands for leads to, or neither has one. */
  lemma ResolveStringInProgram(p: Program, name: string, a: Argument, position: Position, depth: nat)
    requires WellFormed(p) && name in p.modules
    ensures var m, looked := p.modules[name], (c: string) => ImportedString(p, c);
            var imported := (c: string) => Executed(p, c, depth);
            ResolveString(m, looked, ValueOf(a), ReferenceOf(a), position) == Received(m, imported, a, position)
            <==> a.Written? ==>
                   var end := EndOf(m, a.reference, position);
                   end.AtValue?
                   || forall text ::
                        LiteralAt(p, Canonicalize(m.chain, end.reference), text)
                        <==> Meant(m, end).Some? && Leads(p, Meant(m, end).value, depth, text)
  {
    hide ImportedString, Executed, Canonicalize, PartitionDot, Leads, LiteralAt, EndOf, QualifiedName, NameOf, TextOf;
    var m, looked := p.modules[name], (c: string) => ImportedString(p, c);
    var imported := (c: string) => Executed(p, c, depth);
    if a.Written? {
      ResolveReferenceInProgram(p, name, a.reference, position, depth);
    }
  }

  lemma ResolveReferenceInProgram(p: Program, name: string, reference: string, position: Position, depth: nat)
    requires WellFormed(p) && name in p.modules
    ensures var m, looked := p.modules[name], (c: string) => ImportedString(p, c);
            var imported := (c: string) => Executed(p, c, depth);
            var end := EndOf(m, reference, position);
            ResolveString(m, looked, None, Some(reference), position)
            == TextOf(m, imported, EnvironmentAt(m, imported, position), reference)
            <==> end.AtValue?
                 || forall text ::
                      LiteralAt(p, Canonicalize(m.chain, end.reference), text)
                      <==> Meant(m, end).Some? && Leads(p, Meant(m, end).value, depth, text)
  {
    hide ImportedString, Executed, Canonicalize, PartitionDot, Leads, LiteralAt, EndOf, QualifiedName, NameOf;
    var m, looked := p.modules[name], (c: string) => ImportedString(p, c);
    var imported := (c: string) => Executed(p, c, depth);
    var end := EndOf(m, reference, position);
    ResolveStringAgreesIff(m, looked, imported, reference, position);
    if end.AtReference? {
      var written := Canonicalize(m.chain, end.reference);
      QualifiedNameIsExecution(m, imported, end.reference, end.position);
      forall text
        ensures ImportedString(p, written) == Some(text) <==> LiteralAt(p, written, text)
        ensures Meant(m, end).Some? ==>
                  (Executed(p, Meant(m, end).value, depth) == Some(text)
                   <==> Leads(p, Meant(m, end).value, depth, text))
      {
        ImportedIffLiteral(p, written, text);
        if Meant(m, end).Some? {
          ExecutedIffLeads(p, Meant(m, end).value, depth, text);
        }
      }
      var found := EndText(m, imported, end);
      SameOptions(ImportedString(p, written), found);
    }
  }

  /** Options are equal when they hold the same. */
  lemma SameOptions(a: Option<string>, b: Option<string>)
    ensures a == b <==> forall text :: a == Some(text) <==> b == Some(text)
  {
    if forall text :: a == Some(text) <==> b == Some(text) {
      if a.Some? {
        assert a == Some(a.value);
      }
      if b.Some? {
        assert b == Some(b.value);
      }
    }
  }

  // ------------------------------------------------------------ strings the resolver loses

  /** A name read in a module of one letter. */
  lemma OwnedByLetter(p: Program, q: string)
    requires |q| > 2 && q[1] == '.' && q[2] != '.' && q[..1] in p.modules
    requires forall name :: name in p.modules ==> |name| == 1
    ensures Owned(p, q) == Some(Entry(q[..1], q[2..])) && q !in p.modules
  {
    hide Owned;
    var owner, name := q[..1], q[2..];
    assert q == owner + "." + name;
    forall m | m in p.modules && m + "." <= q
      ensures |m| <= 1
    {
    }
    OwnedByLongest(p, owner, name);
  }

  /** `BASE = "/v1"`, `PREFIX = BASE`. */
  function AliasedConstant(): Module {
    Module([Binding("BASE", None, Some("/v1"), Position(1, 0)), Binding("PREFIX", Some("BASE"), None, Position(2, 0))],
           [Scope(map[], {"BASE", "PREFIX"})])
  }

  /** In module k, execution imports the string, the resolver does not. */
  lemma AliasedConstantIsLost()
    ensures var p := Program(map["k" := AliasedConstant()], map[]);
            && WellFormed(p)
            && ImportedString(p, "k.PREFIX") == None && Executed(p, "k.PREFIX", 1) == Some("/v1")
  {
    hide AliasedConstant;
    assert "k.PREFIX"[..1] == "k" && "k.PREFIX"[2..] == "PREFIX";
    AliasedBindings(AliasedConstant());
    ReadInOneModule(AliasedConstant(), "k.PREFIX");
  }

  /** Reading from the only module there is. */
  lemma ReadInOneModule(m: Module, q: string)
    requires |q| > 2 && q[1] == '.' && q[2] != '.' && q[..1] == "k"
    requires InOrder(m.bindings) && PlainNames(m.bindings)
    ensures var p := Program(map["k" := m], map[]);
            && WellFormed(p)
            && Executed(p, q, 1) == (if LandedIn(m, q[2..]).LandsAt? then LandedIn(m, q[2..]).text else None)
            && ImportedString(p, q) == match LatestBinding(m.bindings, q[2..], None)
                                       case Some(b) => if '.' in q[2..] then None else b.text
                                       case None => None
  {
    hide Owned, LatestBinding, LandedIn, Executed, InOrder, PlainNames;
    var p := Program(map["k" := m], map[]);
    OwnedByLetter(p, q);
    ExecutedStep(p, q, 1);
    if LandedIn(m, q[2..]).LeadsTo? {
      NothingExecuted(p, LandedIn(m, q[2..]).canonical);
    }
  }

  lemma AliasedBindings(m: Module)
    requires m == AliasedConstant()
    ensures InOrder(m.bindings) && PlainNames(m.bindings)
    ensures LatestBinding(m.bindings, "PREFIX", None) == Some(m.bindings[1]) && m.bindings[1].text == None
    ensures LandedIn(m, "PREFIX") == LandsAt(Some("/v1"))
  {
    hide PartitionDot, QualifiedName, Canonicalize;
    var base, prefix := m.bindings[0], m.bindings[1];
    assert |base.name| == 4 && |prefix.name| == 6;
    PlainPartition("PREFIX");
    LatestOfTwo(base, prefix, "BASE", prefix.position);
    assert EndOf(m, "BASE", prefix.position) == AtValue(Some("/v1"));
  }

  /** `P = "/v1"`. */
  function Constant(): Module {
    Module([Binding("P", None, Some("/v1"), Position(1, 0))], [Scope(map[], {"P"})])
  }

  /** A module with one import and no binding. */
  function Importer(name: string, canonical: string): Module {
    Module([], [Scope(map[name := canonical], {})])
  }

  lemma ConstantLanding(p: Program)
    requires "a" in p.modules && p.modules["a"] == Constant() && forall name :: name in p.modules ==> |name| == 1
    ensures Landed(p, "a.P") == LandsAt(Some("/v1"))
  {
    hide Owned;
    PlainPartition("P");
    assert "a.P"[..1] == "a" && "a.P"[2..] == "P";
    OwnedByLetter(p, "a.P");
  }

  lemma ImporterLanding(name: string, canonical: string, reference: string)
    requires PartitionDot(reference).head == name && name != "" && name[0] != '<'
    ensures LandedIn(Importer(name, canonical), reference) == LeadsTo(Rejoin(canonical, PartitionDot(reference)))
  {
    hide PartitionDot;
    assert reference[0] == name[0];
    assert AliasOf([Scope(map[name := canonical], {})], name) == Some(canonical);
  }

  /** `from k import name`, `Q = reference`. */
  function Reader(name: string, reference: string): Module {
    Module([Binding("Q", Some(reference), None, Position(1, 0))], [Scope(map[name := "k." + name], {"Q"})])
  }

  /** The constant in module a, one import in module k, and in module m a reader of what k imports. */
  function Imported(name: string, canonical: string, reference: string): Program {
    Program(map["a" := Constant(), "k" := Importer(name, canonical), "m" := Reader(name, reference)], map[])
  }

  /** The reader's Q is the string when the program is executed, and nothing to the resolver. */
  ghost predicate Loses(p: Program) {
    && WellFormed(p) && "m" in p.modules
    && var m, end := p.modules["m"], Position(2, 0);
       var looked, imported := (c: string) => ImportedString(p, c), (c: string) => Executed(p, c, 2);
       && ResolveString(m, looked, None, Some("Q"), end) == None
       && TextOf(m, imported, EnvironmentAt(m, imported, end), "Q") == Some("/v1")
  }

  /** `from a import P` in k, which binds nothing. */
  lemma ReexportedConstantIsLost()
    ensures Loses(Imported("P", "a.P", "P"))
    ensures ImportedString(Imported("P", "a.P", "P"), "k.P") == None
    ensures Executed(Imported("P", "a.P", "P"), "k.P", 2) == Some("/v1")
  {
    hide Loses, LandedIn, Imported, ImportedString, Executed;
    PlainPartition("P");
    ImporterLanding("P", "a.P", "P");
    assert "k." + "P" == "k.P" && "k.P"[..1] == "k" && "k.P"[2..] == "P";
    ReadThroughImporter("P", "a.P", "P");
    ReaderLoses("P", "a.P", "P");
  }

  /** `import a as b` in k: execution reads the attribute of the module that b names, the resolver looks for no
      attributes of another module's names. */
  lemma AttributeThroughModuleIsLost()
    ensures Loses(Imported("b", "a", "b.P"))
    ensures ImportedString(Imported("b", "a", "b.P"), "k.b.P") == None
    ensures Executed(Imported("b", "a", "b.P"), "k.b.P", 2) == Some("/v1")
  {
    hide Loses, LandedIn, Imported, ImportedString, Executed;
    assert "b" + "." + "P" == "b.P" && "a" + "." + "P" == "a.P";
    PartitionUnique("b", "P");
    ImporterLanding("b", "a", "b.P");
    assert "k." + "b.P" == "k.b.P" && "k.b.P"[..1] == "k" && "k.b.P"[2..] == "b.P";
    ReadThroughImporter("b", "a", "b.P");
    ReaderLoses("b", "a", "b.P");
  }

  lemma ReadThroughImporter(name: string, canonical: string, reference: string)
    requires reference != "" && reference[0] != '.'
    requires LandedIn(Importer(name, canonical), reference) == LeadsTo("a.P")
    ensures var p := Imported(name, canonical, reference);
            && WellFormed(p)
            && ImportedString(p, "k." + reference) == None && Executed(p, "k." + reference, 2) == Some("/v1")
  {
    hide Owned, LandedIn, Executed;
    var p, q := Imported(name, canonical, reference), "k." + reference;
    assert q[..1] == "k" && q[2..] == reference;
    OwnedByLetter(p, q);
    ConstantLanding(p);
    ExecutedStep(p, q, 2);
    ExecutedStep(p, "a.P", 1);
  }

  lemma ReaderLoses(name: string, canonical: string, reference: string)
    requires |name| == 1 && name[0] != 'Q' && name[0] != '<' && PartitionDot(reference).head == name
    requires WellFormed(Imported(name, canonical, reference))
    requires ImportedString(Imported(name, canonical, reference), "k." + reference) == None
    requires Executed(Imported(name, canonical, reference), "k." + reference, 2) == Some("/v1")
    ensures Loses(Imported(name, canonical, reference))
  {
    hide ImportedString, Executed, WellFormed, Importer, Constant, TextOf, ResolveString, EnvironmentAt;
    var p := Imported(name, canonical, reference);
    var m, end := p.modules["m"], Position(2, 0);
    var looked, imported := (c: string) => ImportedString(p, c), (c: string) => Executed(p, c, 2);
    ReaderEnd(name, reference);
    assert InOrder(m.bindings) && PlainNames(m.bindings);
    ResolveStringIsEnd(m, looked, "Q", end);
    TextOfIsEndText(m, imported, "Q", end);
    QualifiedNameIsExecution(m, imported, reference, Position(1, 0));
  }

  lemma ReaderEnd(name: string, reference: string)
    requires |name| == 1 && name[0] != 'Q' && name[0] != '<' && PartitionDot(reference).head == name
    ensures var m := Reader(name, reference);
            && EndOf(m, "Q", Position(2, 0)) == AtReference(reference, Position(1, 0))
            && Canonicalize(m.chain, reference) == "k." + reference
            && QualifiedName(m, reference, Position(1, 0)) == Some("k." + reference)
  {
    hide PartitionDot;
    assert reference[0] == name[0];
    assert AliasOf([Scope(map[name := "k." + name], {"Q"})], name) == Some("k." + name);
    if PartitionDot(reference).dotted {
      assert ("k." + name) + "." + PartitionDot(reference).tail == "k." + reference;
    }
  }
}
