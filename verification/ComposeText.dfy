/** Writing a Compose file: its lines of text, and that the scanners read them as the rows of a rendering. */
module ComposeText {
  import opened Options
  import opened Text
  import opened ComposeScan
  import opened ComposeRender
  import opened ComposeLines

  /** A file whose other keys, attributes and list items are lines as they stand, comments and blank ones among them. */
  type TextDocument = DocumentOf<string>

  function KeyText(indent: nat, name: string): string {
    Spaces(indent) + (name + [':'])
  }

  function DependencyLines(indent: nat, d: DependencyOf<string>): seq<string> {
    match d
    case Mapped(name, attributes) => [KeyText(indent, name)] + attributes
    case OneLine(name, condition) => [Spaces(indent) + OneLineText(name, condition)]
  }

  function DependenciesLines(indent: nat, ds: seq<DependencyOf<string>>): seq<string>
    decreases |ds|
  {
    if ds == [] then [] else DependenciesLines(indent, ds[..|ds| - 1]) + DependencyLines(indent, ds[|ds| - 1])
  }

  function SectionLines(section: SectionOf<string>): seq<string> {
    match section
    case DependsOn(at, deeper, ds) => [KeyText(at, "depends_on")] + DependenciesLines(deeper, ds)
    case Listed(at, items) => [KeyText(at, "depends_on")] + items
    case Lines(lines) => lines
  }

  function SectionsLines(sections: seq<SectionOf<string>>): seq<string>
    decreases |sections|
  {
    if sections == [] then []
    else SectionsLines(sections[..|sections| - 1]) + SectionLines(sections[|sections| - 1])
  }

  function ServiceLines(indent: nat, service: ServiceOf<string>): seq<string> {
    [KeyText(indent, service.name)] + SectionsLines(service.sections)
  }

  function ServicesLines(indent: nat, services: seq<ServiceOf<string>>): seq<string>
    decreases |services|
  {
    if services == [] then []
    else ServicesLines(indent, services[..|services| - 1]) + ServiceLines(indent, services[|services| - 1])
  }

  function LinesOf(doc: TextDocument): seq<string> {
    doc.before + [KeyText(doc.indent, "services")] + ServicesLines(doc.serviceIndent, doc.services) + doc.after
  }

  // ----- The rendering that is meant -----

  function ReadDependency(d: DependencyOf<string>): Dependency {
    match d
    case Mapped(name, attributes) => Mapped(name, Significant(View, attributes))
    case OneLine(name, condition) => OneLine(name, condition)
  }

  function ReadDependencies(ds: seq<DependencyOf<string>>): (r: seq<Dependency>)
    ensures |r| == |ds| && forall i | 0 <= i < |ds| :: r[i] == ReadDependency(ds[i])
  {
    seq(|ds|, i requires 0 <= i < |ds| => ReadDependency(ds[i]))
  }

  function ReadSection(section: SectionOf<string>): Section {
    match section
    case DependsOn(at, deeper, ds) => DependsOn(at, deeper, ReadDependencies(ds))
    case Listed(at, items) => Listed(at, Significant(View, items))
    case Lines(lines) => Lines(Significant(View, lines))
  }

  function ReadSections(sections: seq<SectionOf<string>>): (r: seq<Section>)
    ensures |r| == |sections| && forall i | 0 <= i < |sections| :: r[i] == ReadSection(sections[i])
  {
    seq(|sections|, i requires 0 <= i < |sections| => ReadSection(sections[i]))
  }

  function ReadService(service: ServiceOf<string>): Service {
    Service(service.name, service.indent, ReadSections(service.sections))
  }

  function ReadServices(services: seq<ServiceOf<string>>): (r: seq<Service>)
    ensures |r| == |services| && forall i | 0 <= i < |services| :: r[i] == ReadService(services[i])
  {
    seq(|services|, i requires 0 <= i < |services| => ReadService(services[i]))
  }

  function Read(doc: TextDocument): Document {
    Document(Significant(View, doc.before), doc.indent, doc.serviceIndent, ReadServices(doc.services), Significant(View, doc.after))
  }

  // ----- Names that need no quotes -----

  predicate Named(d: DependencyOf<string>) {
    Plain(d.name) && (d.OneLine? ==> Plain(d.condition))
  }

  predicate NamedSection(section: SectionOf<string>) {
    section.DependsOn? ==> forall i | 0 <= i < |section.dependencies| :: Named(section.dependencies[i])
  }

  predicate NamedService(service: ServiceOf<string>) {
    Plain(service.name) && forall i | 0 <= i < |service.sections| :: NamedSection(service.sections[i])
  }

  predicate NamedDocument(doc: TextDocument) {
    forall i | 0 <= i < |doc.services| :: NamedService(doc.services[i])
  }

  // ----- Reading back what was written -----

  lemma {:induction false} SignificantAppend(view: string -> Option<Row>, a: seq<string>, b: seq<string>)
    ensures Significant(view, a + b) == Significant(view, a) + Significant(view, b)
    decreases |b|
  {
    if b == [] {
      assert a + b == a;
    } else {
      var n := |b| - 1;
      assert (a + b)[..|a| + n] == a + b[..n];
      SignificantAppend(view, a, b[..n]);
    }
  }

  lemma SignificantOne(view: string -> Option<Row>, line: string, row: Row)
    requires view(line) == Some(row)
    ensures Significant(view, [line]) == [row]
  {
    assert [line][..0] == [] && Significant(view, []) == [];
  }

  /** A line for a row and then more lines. */
  lemma SignificantFirst(view: string -> Option<Row>, line: string, row: Row, lines: seq<string>)
    requires view(line) == Some(row)
    ensures Significant(view, [line] + lines) == [row] + Significant(view, lines)
  {
    SignificantAppend(view, [line], lines);
    SignificantOne(view, line, row);
  }

  lemma KeyRead(indent: nat, name: string)
    requires Plain(name)
    ensures View(KeyText(indent, name)) == Some(NameRow(indent, name))
  {
    NameLine(indent, name);
  }

  lemma HeaderRead(indent: nat, name: string)
    requires name == "depends_on" || name == "services"
    ensures View(KeyText(indent, name)) == Some(NameRow(indent, name))
  {
    assert Plain(name);
    KeyRead(indent, name);
  }

  lemma DependencyReadBack(indent: nat, d: DependencyOf<string>)
    requires Named(d)
    ensures Significant(View, DependencyLines(indent, d)) == DependencyRows(indent, ReadDependency(d))
  {
    match d
    case Mapped(name, attributes) =>
      KeyRead(indent, name);
      SignificantFirst(View, KeyText(indent, name), NameRow(indent, name), attributes);
    case OneLine(name, condition) =>
      OneLineLine(indent, name, condition);
      SignificantOne(View, Spaces(indent) + OneLineText(name, condition), OneLineRow(indent, name, condition));
  }

  lemma {:induction false} DependenciesReadBack(indent: nat, ds: seq<DependencyOf<string>>)
    requires forall i | 0 <= i < |ds| :: Named(ds[i])
    ensures Significant(View, DependenciesLines(indent, ds)) == DependenciesRows(indent, ReadDependencies(ds))
    decreases |ds|
  {
    if ds != [] {
      var n := |ds| - 1;
      DependenciesReadBack(indent, ds[..n]);
      DependencyReadBack(indent, ds[n]);
      SignificantAppend(View, DependenciesLines(indent, ds[..n]), DependencyLines(indent, ds[n]));
      assert ReadDependencies(ds)[..n] == ReadDependencies(ds[..n]);
    }
  }

  lemma SectionReadBack(section: SectionOf<string>)
    requires NamedSection(section)
    ensures Significant(View, SectionLines(section)) == SectionRows(ReadSection(section))
  {
    match section
    case DependsOn(at, deeper, ds) =>
      HeaderRead(at, "depends_on");
      DependenciesReadBack(deeper, ds);
      SignificantFirst(View, KeyText(at, "depends_on"), NameRow(at, "depends_on"), DependenciesLines(deeper, ds));
    case Listed(at, items) =>
      HeaderRead(at, "depends_on");
      SignificantFirst(View, KeyText(at, "depends_on"), NameRow(at, "depends_on"), items);
    case Lines(lines) =>
  }

  lemma {:induction false} SectionsReadBack(sections: seq<SectionOf<string>>)
    requires forall i | 0 <= i < |sections| :: NamedSection(sections[i])
    ensures Significant(View, SectionsLines(sections)) == SectionsRows(ReadSections(sections))
    decreases |sections|
  {
    if sections != [] {
      var n := |sections| - 1;
      SectionsReadBack(sections[..n]);
      SectionReadBack(sections[n]);
      SignificantAppend(View, SectionsLines(sections[..n]), SectionLines(sections[n]));
      assert ReadSections(sections)[..n] == ReadSections(sections[..n]);
    }
  }

  lemma ServiceReadBack(indent: nat, service: ServiceOf<string>)
    requires NamedService(service)
    ensures Significant(View, ServiceLines(indent, service)) == ServiceRows(indent, ReadService(service))
  {
    KeyRead(indent, service.name);
    SectionsReadBack(service.sections);
    SignificantFirst(View, KeyText(indent, service.name), NameRow(indent, service.name), SectionsLines(service.sections));
  }

  lemma {:induction false} ServicesReadBack(indent: nat, services: seq<ServiceOf<string>>)
    requires forall i | 0 <= i < |services| :: NamedService(services[i])
    ensures Significant(View, ServicesLines(indent, services)) == ServicesRows(indent, ReadServices(services))
    decreases |services|
  {
    if services != [] {
      var n := |services| - 1;
      ServicesReadBack(indent, services[..n]);
      ServiceReadBack(indent, services[n]);
      SignificantAppend(View, ServicesLines(indent, services[..n]), ServiceLines(indent, services[n]));
      assert ReadServices(services)[..n] == ReadServices(services[..n]);
    }
  }

  /** The significant lines of a written document are exactly the rows of the rendering it means. */
  lemma LinesReadBack(doc: TextDocument)
    requires NamedDocument(doc)
    ensures Significant(View, LinesOf(doc)) == Rows(Read(doc))
  {
    var header, services := KeyText(doc.indent, "services"), ServicesLines(doc.serviceIndent, doc.services);
    HeaderRead(doc.indent, "services");
    ServicesReadBack(doc.serviceIndent, doc.services);
    SignificantOne(View, header, NameRow(doc.indent, "services"));
    SignificantAppend(View, doc.before, [header]);
    SignificantAppend(View, doc.before + [header], services);
    SignificantAppend(View, doc.before + [header] + services, doc.after);
  }

  lemma OneConditionAwaits(name: string, indent: nat, value: string)
    ensures Awaits(Mapped(name, [ConditionRow(indent, value)])) == (value == COMPLETED)
  {
    var rows := [ConditionRow(indent, value)];
    assert rows[..0] == [] && !AnyCompleted(rows[..0]);
    assert AnyCompleted(rows) == (rows[0].condition == Some(COMPLETED));
  }

  function ConditionText(indent: nat, value: string): string {
    Spaces(indent) + ("condition" + [':'] + ([' '] + value))
  }

  lemma ConditionReadBack(name: string, indent: nat, value: string, line: string)
    requires View(line) == Some(ConditionRow(indent, value))
    ensures ReadDependency(Mapped(name, [line])) == Mapped(name, [ConditionRow(indent, value)])
  {
    SignificantOne(View, line, ConditionRow(indent, value));
  }

  /** A nested dependency with a condition line, as it is written, awaits completion exactly if the condition says so. */
  lemma WrittenConditionAwaits(name: string, indent: nat, value: string)
    requires Plain(value)
    ensures Awaits(ReadDependency(Mapped(name, [ConditionText(indent, value)]))) == (value == COMPLETED)
  {
    ConditionLine(indent, value);
    ConditionReadBack(name, indent, value, ConditionText(indent, value));
    OneConditionAwaits(name, indent, value);
  }

  function BuildKeyText(indent: nat, value: string): string {
    Spaces(indent) + ("build" + [':'] + ([' '] + value))
  }

  lemma {:induction false} RowAmong(view: string -> Option<Row>, lines: seq<string>, line: string, row: Row)
    requires line in lines && view(line) == Some(row)
    ensures row in Significant(view, lines)
    decreases |lines|
  {
    var n := |lines| - 1;
    if lines[n] != line {
      assert line in lines[..n];
      RowAmong(view, lines[..n], line, row);
    }
  }

  /** A service with a written line such as "build: ." among its keys is built, and by a key of its own. */
  lemma WrittenBuildIsFound(service: ServiceOf<string>, k: nat, value: string)
    requires k < |service.sections| && service.sections[k].Lines? && value != "" && Trimmed(value)
    requires BuildKeyText(service.indent, value) in service.sections[k].rows
    ensures HasBuildLine(ReadService(service)) && HasBuildKey(ReadService(service))
  {
    var line, sections := BuildKeyText(service.indent, value), ReadSections(service.sections);
    BuildLine(service.indent, value);
    var row := View(line).value;
    RowAmong(View, service.sections[k].rows, line, row);
    RowAmongSections(sections, k, row);
    assert IsBuildRow(row) && row.indent == ReadService(service).indent;
  }

  lemma {:induction false} RowAmongSections(sections: seq<Section>, k: nat, row: Row)
    requires k < |sections| && row in SectionRows(sections[k])
    ensures row in SectionsRows(sections)
    decreases |sections|
  {
    if k < |sections| - 1 {
      RowAmongSections(sections[..|sections| - 1], k, row);
    }
  }

  /**
   * From text to services: the file written for any plain document, at whatever indents and with whatever comments,
   * is scanned to exactly the dependencies in plain sight, the services, and those with a line that reads as a build key.
   */
  lemma ScanOfText(doc: TextDocument)
    requires NamedDocument(doc) && PlainDocument(Read(doc)) && forall line | line in LinesOf(doc) :: '\n' !in line
    ensures var read, services := Significant(View, Split(Join(LinesOf(doc), '\n'), '\n')), Read(doc).services;
      && Found(Start(), read) == InServices(AnySeen, services)
      && BuildRun(BuildStart(), read).known == Names(services)
      && BuildRun(BuildStart(), read).builds == BuiltNames(services)
      && ((forall x | x in services :: NotMisleading(x)) ==> Found(Start(), read) == InServices(OwnAwaited, services))
  {
    SplitJoin(LinesOf(doc), '\n');
    LinesReadBack(doc);
    CompletedDependenciesOfARendering(Read(doc));
    CompletedDependenciesExactly(Read(doc));
    PlainIsIndented(Read(doc));
    BuildsOfARendering(Read(doc));
  }
}
