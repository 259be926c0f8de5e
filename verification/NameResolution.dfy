/** Resolving module-level names backwards from a position, and the forward execution of the same
    bindings that it must agree with. */
module NameResolution {
  import opened Foundations

  // ------------------------------------------------------------ dotted references

  datatype Partition = Partition(head: string, dotted: bool, tail: string)

  /** Python's `reference.partition(".")`. */
  function PartitionDot(reference: string): (p: Partition)
    ensures p.dotted ==> reference == p.head + "." + p.tail
    ensures !p.dotted ==> reference == p.head && p.tail == ""
    ensures '.' !in p.head
    ensures p.dotted <==> '.' in reference
  {
    if reference == "" then Partition("", false, "")
    else if reference[0] == '.' then Partition("", true, reference[1..])
    else
      var rest := PartitionDot(reference[1..]);
      Partition([reference[0]] + rest.head, rest.dotted, rest.tail)
  }

  lemma {:induction false} PartitionUnique(head: string, tail: string)
    requires '.' !in head
    ensures PartitionDot(head + "." + tail) == Partition(head, true, tail)
  {
    if head == "" {
      assert "" + "." + tail == "." + tail;
    } else {
      assert (head + "." + tail)[1..] == head[1..] + "." + tail;
      PartitionUnique(head[1..], tail);
    }
  }

  /** The tail put back after a head has been replaced. */
  function Rejoin(prefix: string, p: Partition): string {
    if p.dotted then prefix + "." + p.tail else prefix
  }

  lemma PartitionOfExtended(reference: string, tail: string)
    ensures PartitionDot(reference + "." + tail) == Extended(PartitionDot(reference), tail)
  {
    var p := PartitionDot(reference);
    if p.dotted {
      ExtendedText(p.head, p.tail, tail);
      PartitionUnique(p.head, p.tail + "." + tail);
    } else {
      PartitionUnique(p.head, tail);
    }
  }

  lemma ExtendedText(head: string, middle: string, tail: string)
    ensures (head + "." + middle) + "." + tail == head + "." + (middle + "." + tail)
  {
  }

  function Extended(p: Partition, tail: string): Partition {
    Partition(p.head, true, if p.dotted then p.tail + "." + tail else tail)
  }

  lemma RejoinExtended(prefix: string, p: Partition, tail: string)
    ensures Rejoin(prefix, Extended(p, tail)) == Rejoin(prefix, p) + "." + tail
  {
    if p.dotted {
      assert prefix + "." + (p.tail + "." + tail) == prefix + "." + p.tail + "." + tail;
    }
  }

  // ------------------------------------------------------------ import aliases

  /** One import of a scope: the local name and what it stands for, None when a relative import
      has no base. */
  datatype RawImport = RawImport(localName: Option<string>, canonicalPrefix: Option<string>)

  predicate Binds(i: RawImport, name: string) {
    i.localName == Some(name) && i.canonicalPrefix.Some?
  }

  /** The imports of the scope that bind `name`, in order. */
  function Binders(imports: seq<RawImport>, name: string): seq<string> {
    if imports == [] then []
    else Binders(imports[..|imports| - 1], name)
         + (if Binds(imports[|imports| - 1], name) then [imports[|imports| - 1].canonicalPrefix.value] else [])
  }

  /** A name is an alias only when exactly one import binds it. */
  method AliasesForScope(imports: seq<RawImport>) returns (aliases: map<string, string>)
    ensures forall name :: name in aliases <==> |Binders(imports, name)| == 1
    ensures forall name :: name in aliases ==> aliases[name] == Binders(imports, name)[0]
  {
    var grouped: map<string, seq<string>> := map[];
    for i := 0 to |imports|
      invariant forall name :: name in grouped <==> Binders(imports[..i], name) != []
      invariant forall name :: name in grouped ==> grouped[name] == Binders(imports[..i], name)
    {
      assert imports[..i + 1][..i] == imports[..i];
      var raw := imports[i];
      if raw.localName.Some? && raw.canonicalPrefix.Some? {
        var name := raw.localName.value;
        var earlier := if name in grouped then grouped[name] else [];
        grouped := grouped[name := earlier + [raw.canonicalPrefix.value]];
      }
    }
    assert imports[..|imports|] == imports;
    aliases := map name | name in grouped && |grouped[name]| == 1 :: grouped[name][0];
  }

  datatype Scope = Scope(aliases: map<string, string>, writes: set<string>)

  /** The alias that the nearest scope gives to `head`; a scope that writes the name hides the rest. */
  function AliasOf(chain: seq<Scope>, head: string): Option<string> {
    if chain == [] then None
    else if head in chain[0].aliases then Some(chain[0].aliases[head])
    else if head in chain[0].writes then None
    else AliasOf(chain[1..], head)
  }

  function Canonicalize(chain: seq<Scope>, reference: string): string {
    if reference != "" && reference[0] == '<' then reference
    else
      var p := PartitionDot(reference);
      match AliasOf(chain, p.head)
      case Some(prefix) => Rejoin(prefix, p)
      case None => reference
  }

  /** Canonicalising commutes with appending an attribute tail. */
  lemma CanonicalizeKeepsTail(chain: seq<Scope>, reference: string, tail: string)
    ensures Canonicalize(chain, reference + "." + tail) == Canonicalize(chain, reference) + "." + tail
  {
    var longer, p := reference + "." + tail, PartitionDot(reference);
    PartitionOfExtended(reference, tail);
    assert longer[0] == (if reference == "" then '.' else reference[0]);
    if AliasOf(chain, p.head).Some? {
      RejoinExtended(AliasOf(chain, p.head).value, p, tail);
    }
  }

  /** The scope decides about the name: it imports it or writes it. */
  predicate Decides(s: Scope, name: string) {
    name in s.aliases || name in s.writes
  }

  /** A reference to `head`, or to something in it, starts with what the nearest scope that imports or writes
      `head` imports under that name; it stays as it is if that scope only writes it, if there is none, or if it is no
      name at all (`<lambda>` and the like). */
  lemma {:induction false} NearestScopeDecides(chain: seq<Scope>, head: string, rest: string, k: nat)
    requires '.' !in head && (rest == "" || rest[0] == '.')
    requires k <= |chain| && forall j :: 0 <= j < k ==> !Decides(chain[j], head)
    requires k < |chain| ==> Decides(chain[k], head)
    ensures Canonicalize(chain, head + rest)
         == if !("<" <= head) && k < |chain| && head in chain[k].aliases then chain[k].aliases[head] + rest
            else head + rest
  {
    var p := PartitionDot(head + rest);
    if rest != "" {
      assert rest == "." + rest[1..] && head + rest == head + "." + rest[1..];
      PartitionUnique(head, rest[1..]);
    } else {
      assert head + rest == head;
      PlainPartition(head);
    }
    NearestAlias(chain, head, k);
    if k < |chain| && head in chain[k].aliases && rest != "" {
      assert chain[k].aliases[head] + "." + rest[1..] == chain[k].aliases[head] + rest;
    }
  }

  lemma {:induction false} NearestAlias(chain: seq<Scope>, head: string, k: nat)
    requires k <= |chain| && forall j :: 0 <= j < k ==> !Decides(chain[j], head)
    requires k < |chain| ==> Decides(chain[k], head)
    ensures AliasOf(chain, head)
         == if k < |chain| && head in chain[k].aliases then Some(chain[k].aliases[head]) else None
  {
    if k > 0 {
      NearestAlias(chain[1..], head, k - 1);
    }
  }

  // ------------------------------------------------------------ bindings

  datatype Position = Position(line: nat, column: nat)

  predicate Before(a: Position, b: Position) {
    a.line < b.line || (a.line == b.line && a.column < b.column)
  }

  predicate AtMost(a: Position, b: Position) {
    !Before(b, a)
  }

  /** One target of one module-level statement. A statement with several targets yields several
      bindings at one position, all with its one right-hand side. */
  datatype Binding = Binding(name: string, reference: Option<string>, text: Option<string>, position: Position)

  /** The targets of assignments are identifiers. */
  ghost predicate PlainNames(bs: seq<Binding>) {
    forall b :: b in bs ==> '.' !in b.name
  }

  ghost predicate InOrder(bs: seq<Binding>) {
    forall i, j :: 0 <= i < j < |bs| ==> AtMost(bs[i].position, bs[j].position)
  }

  /** What a module's source says: `sorted(module.bindings, key=position)`, its scope, and how a
      canonical name resolves to a string bound in another module. */
  datatype Module = Module(bindings: seq<Binding>, chain: seq<Scope>)

  function SortBindings(raw: seq<Binding>): seq<Binding> {
    Sort((a: Binding, b: Binding) => AtMost(a.position, b.position), raw)
  }

  /** The constructor's sort puts any bindings in order. */
  lemma SortedBindingsAreInOrder(raw: seq<Binding>)
    ensures InOrder(SortBindings(raw)) && multiset(SortBindings(raw)) == multiset(raw)
  {
    var le := (a: Binding, b: Binding) => AtMost(a.position, b.position);
    SortSorts(le, raw);
    SortPermutes(le, raw);
    var s := SortBindings(raw);
    forall i, j | 0 <= i < j < |s|
      ensures AtMost(s[i].position, s[j].position)
    {
      assert le(s[i], s[j]);
    }
  }

  /** The last binding of `name` strictly before `limit` (anywhere when there is no limit). */
  function LatestBinding(bs: seq<Binding>, name: string, limit: Option<Position>): (r: Option<Binding>)
    ensures r.Some? ==> r.value in bs && r.value.name == name && (limit.Some? ==> Before(r.value.position, limit.value))
  {
    if bs == [] then None
    else
      var last := bs[|bs| - 1];
      if last.name == name && (limit.None? || Before(last.position, limit.value)) then Some(last)
      else LatestBinding(bs[..|bs| - 1], name, limit)
  }

  // ------------------------------------------------------------ backward resolution

  /** `imported` stands for the lookup of a canonical name in the other modules. */
  function ResolveString(m: Module, imported: string -> Option<string>, value: Option<string>,
                         reference: Option<string>, position: Position): Option<string>
    decreases position.line, position.column
  {
    if value.Some? then value
    else if reference.None? then None
    else
      match LatestBinding(m.bindings, reference.value, Some(position))
      case Some(b) =>
        if b.text.Some? then b.text
        else if b.reference.Some? then ResolveString(m, imported, None, b.reference, b.position)
        else None
      case None => imported(Canonicalize(m.chain, reference.value))
  }

  function ResolveReference(m: Module, reference: string, position: Position, seen: set<string>): Option<string>
    decreases position.line, position.column
  {
    var p := PartitionDot(reference);
    if p.head in seen then None
    else
      match LatestBinding(m.bindings, p.head, Some(position))
      case Some(b) =>
        if b.reference.None? then None
        else ResolveReference(m, Rejoin(b.reference.value, p), b.position, seen + {p.head})
      case None => Some(Canonicalize(m.chain, reference))
  }

  // ------------------------------------------------------------ forward execution

  /** What a name holds during execution: a string (if the value is one) and a dotted name (if it is
      a reference that can be followed). */
  datatype Value = Value(text: Option<string>, name: Option<string>)

  type Environment = map<string, Value>

  function NameOf(m: Module, env: Environment, reference: string): Option<string> {
    var p := PartitionDot(reference);
    if p.head !in env then Some(Canonicalize(m.chain, reference))
    else match env[p.head].name
         case Some(d) => Some(Rejoin(d, p))
         case None => None
  }

  /** What reading `reference` yields: a bound plain name yields its value; an attribute is read from what
      its head is bound to; and where no binding is involved the name comes from elsewhere. */
  function TextOf(m: Module, imported: string -> Option<string>, env: Environment, reference: string): Option<string> {
    var p := PartitionDot(reference);
    if p.head in env && !p.dotted then env[p.head].text
    else match NameOf(m, env, reference)
         case Some(qualified) => imported(qualified)
         case None => None
  }

  function Evaluate(m: Module, imported: string -> Option<string>, env: Environment, b: Binding): Value {
    Value(if b.text.Some? then b.text
          else if b.reference.Some? then TextOf(m, imported, env, b.reference.value) else None,
          if b.reference.Some? then NameOf(m, env, b.reference.value) else None)
  }

  /** The running module: the environment in which the statement at `at` evaluates its right-hand
      side, and the environment with the targets bound so far. */
  datatype Execution = Execution(at: Option<Position>, entry: Environment, current: Environment)

  function Execute(m: Module, imported: string -> Option<string>, bs: seq<Binding>): Execution {
    if bs == [] then Execution(None, map[], map[])
    else
      var e := Execute(m, imported, bs[..|bs| - 1]);
      var b := bs[|bs| - 1];
      var entry := if e.at == Some(b.position) then e.entry else e.current;
      Execution(Some(b.position), entry, e.current[b.name := Evaluate(m, imported, entry, b)])
  }

  /** The statements before `limit`. */
  function Until(bs: seq<Binding>, limit: Position): seq<Binding> {
    if bs == [] || Before(bs[|bs| - 1].position, limit) then bs else Until(bs[..|bs| - 1], limit)
  }

  /** The environment after executing, in order, every statement before `limit`. */
  function EnvironmentAt(m: Module, imported: string -> Option<string>, limit: Position): Environment {
    Execute(m, imported, Until(m.bindings, limit)).current
  }

  lemma {:induction false} UntilPrefix(bs: seq<Binding>, limit: Position)
    requires InOrder(bs)
    ensures Until(bs, limit) <= bs && InOrder(Until(bs, limit))
    ensures forall i :: 0 <= i < |bs| ==> (i < |Until(bs, limit)| <==> Before(bs[i].position, limit))
  {
    if bs != [] && !Before(bs[|bs| - 1].position, limit) {
      UntilPrefix(bs[..|bs| - 1], limit);
    }
  }

  lemma {:induction false} LatestIsInPrefix(bs: seq<Binding>, name: string, limit: Position)
    requires InOrder(bs)
    ensures LatestBinding(bs, name, Some(limit)) == LatestBinding(Until(bs, limit), name, None)
  {
    if bs != [] {
      if Before(bs[|bs| - 1].position, limit) {
        LatestBeforeAll(bs, name, limit);
      } else {
        LatestIsInPrefix(bs[..|bs| - 1], name, limit);
      }
    }
  }

  lemma {:induction false} LatestBeforeAll(bs: seq<Binding>, name: string, limit: Position)
    requires InOrder(bs) && (bs != [] ==> Before(bs[|bs| - 1].position, limit))
    ensures LatestBinding(bs, name, Some(limit)) == LatestBinding(bs, name, None)
  {
    if bs != [] && bs[|bs| - 1].name != name {
      assert |bs| > 1 ==> AtMost(bs[|bs| - 2].position, bs[|bs| - 1].position);
      LatestBeforeAll(bs[..|bs| - 1], name, limit);
    }
  }

  /** Cutting a prefix of the bindings at a limit is cutting all of them, if the rest is not earlier. */
  lemma {:induction false} UntilOfPrefix(bs: seq<Binding>, n: nat, limit: Position)
    requires InOrder(bs) && n <= |bs| && (n < |bs| ==> AtMost(limit, bs[n].position))
    ensures Until(bs, limit) == Until(bs[..n], limit)
  {
    if n < |bs| {
      var k := |bs| - 1;
      assert AtMost(limit, bs[k].position);
      assert bs[..k][..n] == bs[..n];
      UntilOfPrefix(bs[..k], n, limit);
    } else {
      assert bs[..n] == bs;
    }
  }

  /** During execution a statement is entered in the environment left by all strictly earlier ones. */
  lemma {:induction false} EntryIsEarlier(m: Module, imported: string -> Option<string>, bs: seq<Binding>)
    requires InOrder(bs)
    ensures var e := Execute(m, imported, bs);
            && e.at == (if bs == [] then None else Some(bs[|bs| - 1].position))
            && (bs != [] ==> e.entry == Execute(m, imported, Until(bs, bs[|bs| - 1].position)).current)
  {
    if bs != [] {
      var k := |bs| - 1;
      var b := bs[k];
      EntryIsEarlier(m, imported, bs[..k]);
      if k > 0 && bs[k - 1].position == b.position {
        UntilOfPrefix(bs, k, b.position);
      } else {
        assert k > 0 ==> AtMost(bs[k - 1].position, b.position);
        UntilOfPrefix(bs, k, b.position);
        assert Until(bs[..k], b.position) == bs[..k];
      }
    }
  }

  /** After any prefix, a name holds the value of its latest binding, evaluated where that binding stands. */
  lemma {:induction false} ExecutionBindsLatest(m: Module, imported: string -> Option<string>, n: nat, name: string)
    requires InOrder(m.bindings) && n <= |m.bindings|
    ensures var env := Execute(m, imported, m.bindings[..n]).current;
            match LatestBinding(m.bindings[..n], name, None)
            case None => name !in env
            case Some(b) => name in env && env[name] == Evaluate(m, imported, EnvironmentAt(m, imported, b.position), b)
  {
    hide TextOf, NameOf, Until;
    if n > 0 {
      assert m.bindings[..n][..n - 1] == m.bindings[..n - 1];
      ExecutionBindsLatest(m, imported, n - 1, name);
      var b := m.bindings[n - 1];
      EntryIsEarlier(m, imported, m.bindings[..n]);
      UntilOfPrefix(m.bindings, n, b.position);
    }
  }

  lemma EnvironmentBindsLatest(m: Module, imported: string -> Option<string>, limit: Position, name: string)
    requires InOrder(m.bindings)
    ensures var env := EnvironmentAt(m, imported, limit);
            match LatestBinding(m.bindings, name, Some(limit))
            case None => name !in env
            case Some(b) => name in env && env[name] == Evaluate(m, imported, EnvironmentAt(m, imported, b.position), b)
  {
    UntilPrefix(m.bindings, limit);
    var n := |Until(m.bindings, limit)|;
    assert Until(m.bindings, limit) == m.bindings[..n];
    LatestIsInPrefix(m.bindings, name, limit);
    ExecutionBindsLatest(m, imported, n, name);
  }

  // ------------------------------------------------------------ backward agrees with forward

  /** Where following `reference` from literal name to literal name ends: at a binding that is no further
      reference, or at a reference without a binding of that very name. */
  datatype TextEnd = AtValue(text: Option<string>) | AtReference(reference: string, position: Position)

  function EndOf(m: Module, reference: string, position: Position): TextEnd
    decreases position.line, position.column
  {
    match LatestBinding(m.bindings, reference, Some(position))
    case None => AtReference(reference, position)
    case Some(b) =>
      if b.text.Some? || b.reference.None? then AtValue(b.text) else EndOf(m, b.reference.value, b.position)
  }

  /** The end is an attribute of a name the module has bound by then. */
  predicate ReadsBoundHead(m: Module, end: TextEnd) {
    end.AtReference? && LatestBinding(m.bindings, PartitionDot(end.reference).head, Some(end.position)).Some?
  }

  /** What execution reads at the end of the chain. */
  function EndText(m: Module, imported: string -> Option<string>, end: TextEnd): Option<string> {
    match end
    case AtValue(text) => text
    case AtReference(reference, position) =>
      match NameOf(m, EnvironmentAt(m, imported, position), reference)
      case Some(qualified) => imported(qualified)
      case None => None
  }

  lemma PlainPartition(reference: string)
    ensures '.' !in reference <==> PartitionDot(reference) == Partition(reference, false, "")
  {
  }

  /** Reading a name in execution is reading the end of its chain. */
  lemma {:induction false} TextOfIsEndText(m: Module, imported: string -> Option<string>, reference: string,
                                           position: Position)
    requires InOrder(m.bindings) && PlainNames(m.bindings)
    ensures TextOf(m, imported, EnvironmentAt(m, imported, position), reference)
         == EndText(m, imported, EndOf(m, reference, position))
    decreases position.line, position.column
  {
    PlainPartition(reference);
    EnvironmentBindsLatest(m, imported, position, reference);
    match LatestBinding(m.bindings, reference, Some(position))
    case None =>
    case Some(b) =>
      assert b in m.bindings && '.' !in reference;
      if b.text.None? && b.reference.Some? {
        TextOfIsEndText(m, imported, b.reference.value, b.position);
      }
  }

  lemma {:induction false} ResolveStringIsEnd(m: Module, looked: string -> Option<string>, reference: string,
                                              position: Position)
    ensures ResolveString(m, looked, None, Some(reference), position)
         == match EndOf(m, reference, position)
            case AtValue(text) => text
            case AtReference(r, _) => looked(Canonicalize(m.chain, r))
    decreases position.line, position.column
  {
    match LatestBinding(m.bindings, reference, Some(position))
    case None =>
    case Some(b) =>
      if b.text.None? && b.reference.Some? {
        ResolveStringIsEnd(m, looked, b.reference.value, b.position);
      }
  }

  /** The resolver, looking other modules up by `looked`, against execution, importing by `imported`: they
      agree exactly when the chain ends at a value or the two lookups at its end agree. The resolver looks up
      the reference as it is written there, execution the name it then stands for. */
  lemma ResolveStringAgreesIff(m: Module, looked: string -> Option<string>, imported: string -> Option<string>,
                               reference: string, position: Position)
    requires InOrder(m.bindings) && PlainNames(m.bindings)
    ensures var end := EndOf(m, reference, position);
            ResolveString(m, looked, None, Some(reference), position)
            == TextOf(m, imported, EnvironmentAt(m, imported, position), reference)
            <==> end.AtValue? || looked(Canonicalize(m.chain, end.reference)) == EndText(m, imported, end)
  {
    TextOfIsEndText(m, imported, reference, position);
    ResolveStringIsEnd(m, looked, reference, position);
  }

  /** An argument of a call as it is written: a string literal, a reference, or neither. */
  datatype Argument = Literal(text: string) | Written(reference: string) | Unreadable

  /** How the analyser of the call records it. */
  function ValueOf(a: Argument): Option<string> {
    if a.Literal? then Some(a.text) else None
  }

  function ReferenceOf(a: Argument): Option<string> {
    if a.Written? then Some(a.reference) else None
  }

  /** The string the call receives, if it is one. */
  function Received(m: Module, imported: string -> Option<string>, a: Argument, position: Position): Option<string> {
    match a
    case Literal(text) => Some(text)
    case Written(reference) => TextOf(m, imported, EnvironmentAt(m, imported, position), reference)
    case Unreadable => None
  }

  /** `resolve_string` gives the string that a call standing at the position receives after every earlier
      statement has run: a literal always, and a reference if its chain does not end at an attribute of a
      bound name. A literal also prevails over any reference recorded beside it. */
  lemma ResolveStringIsExecution(m: Module, imported: string -> Option<string>, a: Argument, position: Position)
    requires InOrder(m.bindings) && PlainNames(m.bindings)
    ensures (a.Written? ==> !ReadsBoundHead(m, EndOf(m, a.reference, position))) ==>
              ResolveString(m, imported, ValueOf(a), ReferenceOf(a), position) == Received(m, imported, a, position)
    ensures forall other :: a.Literal? ==> ResolveString(m, imported, Some(a.text), other, position) == Some(a.text)
  {
    if a.Written? {
      var end := EndOf(m, a.reference, position);
      ResolveStringAgreesIff(m, imported, imported, a.reference, position);
      if end.AtReference? && !ReadsBoundHead(m, end) {
        EnvironmentBindsLatest(m, imported, end.position, PartitionDot(end.reference).head);
      }
    }
  }

  /** The dotted name execution gives to a reference, by following it backwards without a guard. */
  function QualifiedName(m: Module, reference: string, position: Position): Option<string>
    decreases position.line, position.column
  {
    var p := PartitionDot(reference);
    match LatestBinding(m.bindings, p.head, Some(position))
    case None => Some(Canonicalize(m.chain, reference))
    case Some(b) =>
      if b.reference.None? then None else QualifiedName(m, Rejoin(b.reference.value, p), b.position)
  }

  lemma {:induction false} QualifiedNameIsExecution(m: Module, imported: string -> Option<string>, reference: string,
                                                    position: Position)
    requires InOrder(m.bindings)
    ensures QualifiedName(m, reference, position) == NameOf(m, EnvironmentAt(m, imported, position), reference)
    decreases position.line, position.column
  {
    var p := PartitionDot(reference);
    EnvironmentBindsLatest(m, imported, position, p.head);
    match LatestBinding(m.bindings, p.head, Some(position))
    case None =>
    case Some(b) =>
      if b.reference.Some? {
        QualifiedNameIsExecution(m, imported, Rejoin(b.reference.value, p), b.position);
        if p.dotted {
          NameOfKeepsTail(m, EnvironmentAt(m, imported, b.position), b.reference.value, p.tail);
        }
      }
  }

  /** Resolver and execution agree whatever the other modules hold. */
  ghost predicate AlwaysAgrees(m: Module, reference: string, position: Position) {
    forall imported: string -> Option<string> ::
      ResolveString(m, imported, None, Some(reference), position)
      == TextOf(m, imported, EnvironmentAt(m, imported, position), reference)
  }

  /** Exactly when they do: the end is no attribute of a bound name, or canonicalising it as it is written
      happens to give the name it stands for. */
  lemma ResolveStringAlwaysAgreesIff(m: Module, reference: string, position: Position)
    requires InOrder(m.bindings) && PlainNames(m.bindings)
    ensures var end := EndOf(m, reference, position);
            AlwaysAgrees(m, reference, position)
            <==> !ReadsBoundHead(m, end)
                 || QualifiedName(m, end.reference, end.position) == Some(Canonicalize(m.chain, end.reference))
  {
    hide EndOf, Canonicalize, QualifiedName, ReadsBoundHead, LooksUpAlike;
    var end := EndOf(m, reference, position);
    forall imported: string -> Option<string>
      ensures ResolveString(m, imported, None, Some(reference), position)
              == TextOf(m, imported, EnvironmentAt(m, imported, position), reference)
              <==> LooksUpAlike(m, imported, end)
    {
      LooksUpAlikeIff(m, imported, reference, position);
    }
    AlikeForAllIff(m, end);
    PlainEndIsCanonical(m, end);
  }

  /** The lookup of the end as it is written and of the name it stands for give the same. */
  ghost predicate LooksUpAlike(m: Module, imported: string -> Option<string>, end: TextEnd) {
    end.AtValue?
    || imported(Canonicalize(m.chain, end.reference))
       == match QualifiedName(m, end.reference, end.position) case Some(q) => imported(q) case None => None
  }

  lemma LooksUpAlikeIff(m: Module, imported: string -> Option<string>, reference: string, position: Position)
    requires InOrder(m.bindings) && PlainNames(m.bindings)
    ensures ResolveString(m, imported, None, Some(reference), position)
            == TextOf(m, imported, EnvironmentAt(m, imported, position), reference)
            <==> LooksUpAlike(m, imported, EndOf(m, reference, position))
  {
    hide ResolveString, TextOf, EndOf, Canonicalize, QualifiedName, NameOf;
    var end := EndOf(m, reference, position);
    ResolveStringAgreesIff(m, imported, imported, reference, position);
    if end.AtReference? {
      QualifiedNameIsExecution(m, imported, end.reference, end.position);
    }
  }

  lemma AlikeForAllIff(m: Module, end: TextEnd)
    ensures (forall imported: string -> Option<string> :: LooksUpAlike(m, imported, end))
       <==> end.AtValue? || QualifiedName(m, end.reference, end.position) == Some(Canonicalize(m.chain, end.reference))
  {
    hide Canonicalize, QualifiedName;
    if end.AtReference? {
      var written := Canonicalize(m.chain, end.reference);
      var only := (c: string) => if c == written then Some("") else None;
      assert only(written) == Some("");
      assert LooksUpAlike(m, only, end) ==> QualifiedName(m, end.reference, end.position) == Some(written);
    }
  }

  lemma PlainEndIsCanonical(m: Module, end: TextEnd)
    ensures ReadsBoundHead(m, end) ==> end.AtReference?
    ensures end.AtReference? && !ReadsBoundHead(m, end) ==>
              QualifiedName(m, end.reference, end.position) == Some(Canonicalize(m.chain, end.reference))
  {
    hide Canonicalize;
  }

  /** The difference is real: after `from k import b`, `c = b`, `Q = c.P` execution reads k.b.P, and the
      resolver looks up c.P. */
  lemma AttributeOfAliasIsMisread(imported: string -> Option<string>)
    ensures var m := Module([Binding("c", Some("b"), None, Position(1, 0)),
                             Binding("Q", Some("c.P"), None, Position(2, 0))], [Scope(map["b" := "k.b"], {"c", "Q"})]);
            && InOrder(m.bindings) && PlainNames(m.bindings)
            && ResolveString(m, imported, None, Some("Q"), Position(3, 0)) == imported("c.P")
            && TextOf(m, imported, EnvironmentAt(m, imported, Position(3, 0)), "Q") == imported("k.b.P")
  {
    var b1, b2 := Binding("c", Some("b"), None, Position(1, 0)), Binding("Q", Some("c.P"), None, Position(2, 0));
    var m := Module([b1, b2], [Scope(map["b" := "k.b"], {"c", "Q"})]);
    AliasedAttribute(m);
    TextOfIsEndText(m, imported, "Q", Position(3, 0));
    ResolveStringIsEnd(m, imported, "Q", Position(3, 0));
    QualifiedNameIsExecution(m, imported, "c.P", Position(2, 0));
  }

  lemma AliasedAttribute(m: Module)
    requires m == Module([Binding("c", Some("b"), None, Position(1, 0)),
                          Binding("Q", Some("c.P"), None, Position(2, 0))],
                         [Scope(map["b" := "k.b"], {"c", "Q"})])
    ensures InOrder(m.bindings) && PlainNames(m.bindings)
    ensures EndOf(m, "Q", Position(3, 0)) == AtReference("c.P", Position(2, 0))
    ensures Canonicalize(m.chain, "c.P") == "c.P"
    ensures QualifiedName(m, "c.P", Position(2, 0)) == Some("k.b.P")
  {
    hide LatestBinding, PartitionDot, Canonicalize;
    var b1, b2 := m.bindings[0], m.bindings[1];
    assert "Q"[0] != "c"[0] && "c"[0] != "b"[0] && "Q"[0] != "b"[0];
    assert |"c.P"| == 3 && |b1.name| == 1 && |b2.name| == 1;
    LatestOfTwo(b1, b2, "Q", Position(3, 0));
    LatestOfTwo(b1, b2, "c.P", Position(2, 0));
    LatestOfTwo(b1, b2, "c", Position(2, 0));
    LatestOfTwo(b1, b2, "b", Position(1, 0));
    AttributeParts('c');
    AttributeParts('b');
    AliasedNames(m.chain);
    assert EndOf(m, "c.P", Position(2, 0)) == AtReference("c.P", Position(2, 0));
    assert Rejoin("b", Partition("c", true, "P")) == "b.P";
    assert QualifiedName(m, "b.P", Position(1, 0)) == Some("k.b.P");
  }

  lemma LatestOfTwo(b1: Binding, b2: Binding, name: string, limit: Position)
    ensures LatestBinding([b1, b2], name, Some(limit))
         == if b2.name == name && Before(b2.position, limit) then Some(b2)
            else if b1.name == name && Before(b1.position, limit) then Some(b1) else None
  {
    assert [b1, b2][..1] == [b1] && [b1][..0] == [];
    assert LatestBinding([b1], name, Some(limit))
        == if b1.name == name && Before(b1.position, limit) then Some(b1) else None;
  }

  lemma AliasedNames(chain: seq<Scope>)
    requires chain == [Scope(map["b" := "k.b"], {"c", "Q"})]
    ensures Canonicalize(chain, "c.P") == "c.P" && Canonicalize(chain, "b.P") == "k.b.P"
  {
    AttributeParts('c');
    AttributeParts('b');
    assert "c"[0] != "b"[0];
    assert AliasOf(chain, "c") == None && AliasOf(chain, "b") == Some("k.b");
    assert "k.b" + "." + "P" == "k.b.P";
  }

  lemma AttributeParts(head: char)
    requires head != '.'
    ensures PartitionDot([head, '.', 'P']) == Partition([head], true, "P")
  {
    assert [head] + ".P" == [head, '.', 'P'] && ([head] + ".P")[1..] == ".P" && ".P"[1..] == "P";
    assert PartitionDot(".P") == Partition("", true, "P");
  }

  /** Reading `reference.tail` is reading `reference` and appending the tail. */
  lemma NameOfKeepsTail(m: Module, env: Environment, reference: string, tail: string)
    ensures NameOf(m, env, reference + "." + tail)
            == match NameOf(m, env, reference) case Some(d) => Some(d + "." + tail) case None => None
  {
    PartitionOfExtended(reference, tail);
    var p := PartitionDot(reference);
    if p.head in env {
      if env[p.head].name.Some? {
        RejoinExtended(env[p.head].name.value, p, tail);
      }
    } else {
      CanonicalizeKeepsTail(m.chain, reference, tail);
    }
  }

  /** The heads met while following `reference` backwards. */
  function AliasChain(m: Module, reference: string, position: Position): seq<string>
    decreases position.line, position.column
  {
    var p := PartitionDot(reference);
    match LatestBinding(m.bindings, p.head, Some(position))
    case Some(b) =>
      if b.reference.None? then [p.head] else [p.head] + AliasChain(m, Rejoin(b.reference.value, p), b.position)
    case None => [p.head]
  }

  lemma {:induction false} ResolveReferenceExact(m: Module, imported: string -> Option<string>, reference: string,
                                                 position: Position, seen: set<string>)
    requires InOrder(m.bindings)
    ensures var chain := AliasChain(m, reference, position);
            ResolveReference(m, reference, position, seen)
            == if NoDuplicates(chain) && (forall h :: h in chain ==> h !in seen)
               then NameOf(m, EnvironmentAt(m, imported, position), reference) else None
    decreases position.line, position.column
  {
    var p := PartitionDot(reference);
    var chain := AliasChain(m, reference, position);
    EnvironmentBindsLatest(m, imported, position, p.head);
    match LatestBinding(m.bindings, p.head, Some(position))
    case None =>
    case Some(b) =>
      if b.reference.Some? {
        var expanded := Rejoin(b.reference.value, p);
        var rest := AliasChain(m, expanded, b.position);
        ResolveReferenceExact(m, imported, expanded, b.position, seen + {p.head});
        if p.dotted {
          NameOfKeepsTail(m, EnvironmentAt(m, imported, b.position), b.reference.value, p.tail);
        }
        ChainSplits(p.head, rest, seen);
      }
  }

  lemma ChainSplits(head: string, rest: seq<string>, seen: set<string>)
    ensures (NoDuplicates([head] + rest) && forall h :: h in [head] + rest ==> h !in seen)
            <==> (NoDuplicates(rest) && forall h :: h in rest ==> h !in seen + {head}) && head !in seen
  {
    var chain := [head] + rest;
    assert forall i :: 0 <= i < |rest| ==> chain[i + 1] == rest[i];
    if NoDuplicates(chain) {
      forall i, j | 0 <= i < j < |rest| ensures rest[i] != rest[j] { assert chain[i + 1] != chain[j + 1]; }
      forall i | 0 <= i < |rest| ensures rest[i] != head { assert chain[i + 1] != chain[0]; }
    }
    if NoDuplicates(rest) && head !in rest {
      NoDuplicatesAppend([head], rest);
    }
  }

  /** `resolve_reference` answers with exactly the dotted name execution would bind, unless a name
      recurs along its alias chain; then it answers nothing. */
  lemma ResolveReferenceIsExecution(m: Module, imported: string -> Option<string>, reference: string,
                                    position: Position)
    requires InOrder(m.bindings)
    ensures var bound := NameOf(m, EnvironmentAt(m, imported, position), reference);
            var resolved := ResolveReference(m, reference, position, {});
            && (resolved == None || resolved == bound)
            && (resolved == bound <==> bound == None || NoDuplicates(AliasChain(m, reference, position)))
  {
    ResolveReferenceExact(m, imported, reference, position, {});
  }

  /** The loss is real: after `x = Foo; x = x` execution leaves x naming Foo, and the resolver gives up. */
  lemma RecurringAliasIsLost()
    ensures var m := Module([Binding("x", Some("Foo"), None, Position(1, 0)),
                             Binding("x", Some("x"), None, Position(2, 0))], [Scope(map[], {"x"})]);
            && InOrder(m.bindings)
            && NameOf(m, EnvironmentAt(m, _ => None, Position(3, 0)), "x") == Some("Foo")
            && ResolveReference(m, "x", Position(3, 0), {}) == None
  {
    var b1, b2 := Binding("x", Some("Foo"), None, Position(1, 0)), Binding("x", Some("x"), None, Position(2, 0));
    var m := Module([b1, b2], [Scope(map[], {"x"})]);
    var none := (_: string) => None;
    assert m.bindings[..1] == [b1] && [b1][..0] == [];
    assert LatestBinding(m.bindings, "x", Some(Position(3, 0))) == Some(b2);
    assert LatestBinding(m.bindings, "x", Some(Position(2, 0))) == LatestBinding([b1], "x", Some(Position(2, 0)));
    assert LatestBinding(m.bindings, "x", Some(Position(2, 0))) == Some(b1);
    assert LatestBinding(m.bindings, "Foo", Some(Position(1, 0))) == LatestBinding([b1], "Foo", Some(Position(1, 0)));
    assert LatestBinding(m.bindings, "Foo", Some(Position(1, 0))) == None;
    assert PartitionDot("x") == Partition("x", false, "");
    FooIsPlain();
    EnvironmentBindsLatest(m, none, Position(3, 0), "x");
    EnvironmentBindsLatest(m, none, Position(2, 0), "x");
    EnvironmentBindsLatest(m, none, Position(1, 0), "Foo");
    assert AliasOf(m.chain, "Foo") == None by { assert m.chain[1..] == []; }
  }

  lemma FooIsPlain()
    ensures PartitionDot("Foo") == Partition("Foo", false, "")
  {
    assert "Foo"[1..] == "oo" && "oo"[1..] == "o" && "o"[1..] == "";
  }
}
