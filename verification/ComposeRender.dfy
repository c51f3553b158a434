/**
 * Block-style renderings of a graph of services, at any consistent indents, and what the two scanners make of
 * them. A rendering is a list of rows; ComposeText writes the lines of text that have these rows.
 */
module ComposeRender {
  import opened Options
  import opened ComposeScan

  /** A dependency: a nested mapping with its attribute lines, or a mapping on one line. */
  datatype DependencyOf<L> =
    | Mapped(name: string, attributes: seq<L>)
    | OneLine(name: string, condition: string)

  /**
   * A part of a service: a depends_on key, at the indent of the service's keys or deeper, with its dependencies as a
   * mapping or as a list; or lines of other keys and what belongs to them, none of which reads depends_on.
   */
  datatype SectionOf<L> =
    | DependsOn(at: nat, deeper: nat, dependencies: seq<DependencyOf<L>>)
    | Listed(at: nat, items: seq<L>)
    | Lines(rows: seq<L>)

  datatype ServiceOf<L> = Service(name: string, indent: nat, sections: seq<SectionOf<L>>)

  /** Other top-level keys, then the services, then other top-level keys again. */
  datatype DocumentOf<L> = Document(before: seq<L>, indent: nat, serviceIndent: nat, services: seq<ServiceOf<L>>, after: seq<L>)

  type Dependency = DependencyOf<Row>
  type Section = SectionOf<Row>
  type Service = ServiceOf<Row>
  type Document = DocumentOf<Row>

  function NameRow(indent: nat, name: string): Row {
    Row(indent, name == "services", false, Some(name), name, name == "depends_on", name == "build", None,
        if name == "condition" then Some("") else None)
  }

  function OneLineRow(indent: nat, name: string, condition: string): Row {
    Row(indent, false, false, None, "", false, name == "build", Some((name, condition)),
        if name == "condition" then Some(['{'] + ("condition" + [':'] + ([' '] + condition)) + ['}']) else None)
  }

  function ConditionRow(indent: nat, condition: string): Row {
    Row(indent, false, false, None, "", false, false, None, Some(condition))
  }

  function DependencyRows(indent: nat, d: Dependency): seq<Row> {
    match d
    case Mapped(name, attributes) => [NameRow(indent, name)] + attributes
    case OneLine(name, condition) => [OneLineRow(indent, name, condition)]
  }

  function DependenciesRows(indent: nat, ds: seq<Dependency>): seq<Row>
    decreases |ds|
  {
    if ds == [] then [] else DependenciesRows(indent, ds[..|ds| - 1]) + DependencyRows(indent, ds[|ds| - 1])
  }

  function SectionRows(section: Section): seq<Row> {
    match section
    case DependsOn(at, deeper, ds) => [NameRow(at, "depends_on")] + DependenciesRows(deeper, ds)
    case Listed(at, items) => [NameRow(at, "depends_on")] + items
    case Lines(rows) => rows
  }

  function SectionsRows(sections: seq<Section>): seq<Row>
    decreases |sections|
  {
    if sections == [] then []
    else SectionsRows(sections[..|sections| - 1]) + SectionRows(sections[|sections| - 1])
  }

  function ServiceRows(indent: nat, service: Service): seq<Row> {
    [NameRow(indent, service.name)] + SectionsRows(service.sections)
  }

  function ServicesRows(indent: nat, services: seq<Service>): seq<Row>
    decreases |services|
  {
    if services == [] then []
    else ServicesRows(indent, services[..|services| - 1]) + ServiceRows(indent, services[|services| - 1])
  }

  function Rows(doc: Document): seq<Row> {
    doc.before + [NameRow(doc.indent, "services")] + ServicesRows(doc.serviceIndent, doc.services) + doc.after
  }

  // ----- What a rendering must look like -----

  /** Attributes of a dependency are plain "key: value" lines below it. */
  predicate PlainDependency(indent: nat, d: Dependency) {
    d.name != "" &&
    (d.Mapped? ==> forall i | 0 <= i < |d.attributes| :: PlainAttribute(indent, d.attributes[i]))
  }

  predicate PlainAttribute(indent: nat, row: Row) {
    row.indent > indent && !row.dash && row.key.None? && row.flow.None? && !row.dependsOn
  }

  /** Everything of a service stands at the indent of its keys or deeper, and the items of a list start with a dash. */
  predicate PlainSection(indent: nat, section: Section) {
    match section
    case DependsOn(at, deeper, ds) => indent <= at < deeper && forall i | 0 <= i < |ds| :: PlainDependency(deeper, ds[i])
    case Listed(at, items) => indent <= at && forall i | 0 <= i < |items| :: PlainItem(at, items[i])
    case Lines(rows) => rows != [] && forall i | 0 <= i < |rows| :: rows[i].indent >= indent && !rows[i].dependsOn
  }

  predicate PlainItem(at: nat, row: Row) {
    row.indent >= at && row.dash && !row.dependsOn
  }

  /** The indent at which a section starts. */
  function First(section: Section): nat {
    match section
    case DependsOn(at, _, _) => at
    case Listed(at, _) => at
    case Lines(rows) => if rows == [] then 0 else rows[0].indent
  }

  /** A depends_on key ends where something stands at its indent again. */
  predicate Follows(before: Section, next: Section) {
    before.Lines? || First(next) <= before.at
  }

  predicate PlainSections(indent: nat, sections: seq<Section>) {
    && (forall i | 0 <= i < |sections| :: PlainSection(indent, sections[i]))
    && (forall i | 0 < i < |sections| :: Follows(sections[i - 1], sections[i]))
  }

  /** The indent of a service's keys is where its first key stands. */
  predicate PlainService(indent: nat, service: Service) {
    && service.name != "" && service.indent > indent && PlainSections(service.indent, service.sections)
    && (service.sections != [] ==> First(service.sections[0]) == service.indent)
  }

  predicate PlainDocument(doc: Document) {
    && (forall i | 0 <= i < |doc.before| :: !doc.before[i].services)
    && doc.serviceIndent > doc.indent
    && PlainServices(doc.serviceIndent, doc.services)
    && (doc.after != [] ==> doc.after[0].indent <= doc.indent)
    && (forall i | 0 <= i < |doc.after| :: !doc.after[i].services)
  }

  // ----- What the scanner should find -----

  predicate Awaits(d: Dependency) {
    if d.Mapped? then AnyCompleted(d.attributes) else d.condition == COMPLETED
  }

  predicate AnyCompleted(rows: seq<Row>)
    decreases |rows|
  {
    rows != [] && (AnyCompleted(rows[..|rows| - 1]) || rows[|rows| - 1].condition == Some(COMPLETED))
  }

  /** A nested dependency that is itself called depends_on. */
  predicate Misleading(d: Dependency) {
    d.Mapped? && d.name == "depends_on"
  }

  predicate AnyMisleading(ds: seq<Dependency>)
    decreases |ds|
  {
    ds != [] && (AnyMisleading(ds[..|ds| - 1]) || Misleading(ds[|ds| - 1]))
  }

  /** The dependencies awaited to completion, up to the first misleading one. */
  function Seen(ds: seq<Dependency>): set<string>
    decreases |ds|
  {
    if ds == [] then {}
    else Seen(ds[..|ds| - 1]) + if Awaits(ds[|ds| - 1]) && !AnyMisleading(ds) then {ds[|ds| - 1].name} else {}
  }

  /** All dependencies awaited to completion. */
  function Awaited(ds: seq<Dependency>): set<string>
    decreases |ds|
  {
    if ds == [] then {}
    else Awaited(ds[..|ds| - 1]) + if Awaits(ds[|ds| - 1]) then {ds[|ds| - 1].name} else {}
  }

  /** Those that stand at or after a misleading one. */
  function Hidden(ds: seq<Dependency>): set<string>
    decreases |ds|
  {
    if ds == [] then {}
    else Hidden(ds[..|ds| - 1]) + if Awaits(ds[|ds| - 1]) && AnyMisleading(ds) then {ds[|ds| - 1].name} else {}
  }

  /** Names taken from a section, given the indent of the service's keys. */
  type Pick = (nat, Section) -> set<string>

  function InSections(pick: Pick, indent: nat, sections: seq<Section>): set<string>
    decreases |sections|
  {
    if sections == [] then {}
    else InSections(pick, indent, sections[..|sections| - 1]) + pick(indent, sections[|sections| - 1])
  }

  function InServices(pick: Pick, services: seq<Service>): set<string>
    decreases |services|
  {
    if services == [] then {}
    else
      var last := services[|services| - 1];
      InServices(pick, services[..|services| - 1]) + InSections(pick, last.indent, last.sections)
  }

  /** A depends_on key of the service itself, not one buried under another key. */
  predicate Own(indent: nat, section: Section) {
    section.DependsOn? && section.at == indent
  }

  function AnySeen(indent: nat, section: Section): set<string> {
    if section.DependsOn? then Seen(section.dependencies) else {}
  }

  function OwnAwaited(indent: nat, section: Section): set<string> {
    if Own(indent, section) then Awaited(section.dependencies) else {}
  }

  function OwnSeen(indent: nat, section: Section): set<string> {
    if Own(indent, section) then Seen(section.dependencies) else {}
  }

  function OwnHidden(indent: nat, section: Section): set<string> {
    if Own(indent, section) then Hidden(section.dependencies) else {}
  }

  /** What is seen below a depends_on line that belongs to some other key. */
  function Buried(indent: nat, section: Section): set<string> {
    if section.DependsOn? && !Own(indent, section) then Seen(section.dependencies) else {}
  }

  // ----- Inside depends_on -----

  /** In the depends_on of a service: it is at the indent, dependencies deeper; if any was met, they are aligned. */
  predicate Reading(s: State, indent: nat, deeper: nat) {
    && s.inServices && s.servicesIndent < deeper && 0 <= s.serviceIndent < indent && s.currentService != ""
    && s.servicesIndent < indent && s.inDependsOn && s.dependsIndent == indent < deeper
    && (s.dependencyIndent == deeper || (s.dependencyIndent < 0 && s.currentDependency == ""))
  }

  /** Misled: the rest of the dependencies is not read. */
  predicate Misled(s: State, indent: nat, deeper: nat) {
    && s.inServices && 0 <= s.serviceIndent < indent && s.currentService != "" && s.servicesIndent < indent < deeper
    && (s.inDependsOn ==> s.dependsIndent == deeper && s.currentDependency == "" && s.dependencyIndent < 0)
  }

  lemma AttributeRead(s: State, indent: nat, deeper: nat, row: Row)
    requires Reading(s, indent, deeper) && s.dependencyIndent == deeper && PlainAttribute(deeper, row)
    ensures Next(s, row) == (s, if row.condition == Some(COMPLETED) then s.currentDependency else "")
  {
  }

  lemma {:induction false} AttributesRead(s: State, indent: nat, deeper: nat, rows: seq<Row>)
    requires Reading(s, indent, deeper) && s.dependencyIndent == deeper
    requires forall i | 0 <= i < |rows| :: PlainAttribute(deeper, rows[i])
    ensures Run(s, rows) == s
    ensures Found(s, rows) == if AnyCompleted(rows) then Single(s.currentDependency) else {}
    decreases |rows|
  {
    if rows != [] {
      var n := |rows| - 1;
      AttributesRead(s, indent, deeper, rows[..n]);
      AttributeRead(s, indent, deeper, rows[n]);
    }
  }

  /** After a dash, or a dependency on one line, a condition belongs to nothing until the next name. */
  lemma ConditionNeedsItsName(s: State, indent: nat, deeper: nat, row: Row, next: Row)
    requires Reading(s, indent, deeper) && row.indent > indent && (row.dash || row.flow.Some?) && row.key.None? && !row.dependsOn
    requires PlainAttribute(deeper, next)
    ensures row.dash ==> Next(s, row).1 == ""
    ensures !row.dash ==> Next(s, row).1 == if row.flow.value.1 == COMPLETED then row.flow.value.0 else ""
    ensures Next(Next(s, row).0, next).1 == ""
  {
  }

  lemma AttributeMisled(s: State, indent: nat, deeper: nat, row: Row)
    requires Misled(s, indent, deeper) && PlainAttribute(deeper, row)
    ensures Next(s, row) == (s, "")
  {
  }

  lemma {:induction false} AttributesMisled(s: State, indent: nat, deeper: nat, rows: seq<Row>)
    requires Misled(s, indent, deeper)
    requires forall i | 0 <= i < |rows| :: PlainAttribute(deeper, rows[i])
    ensures Run(s, rows) == s && Found(s, rows) == {}
    decreases |rows|
  {
    if rows != [] {
      var n := |rows| - 1;
      AttributesMisled(s, indent, deeper, rows[..n]);
      AttributeMisled(s, indent, deeper, rows[n]);
    }
  }

  lemma DependencyRead(s: State, indent: nat, deeper: nat, d: Dependency)
    requires Reading(s, indent, deeper) && PlainDependency(deeper, d)
    ensures var end, found := Run(s, DependencyRows(deeper, d)), Found(s, DependencyRows(deeper, d));
      if Misleading(d) then Misled(end, indent, deeper) && found == {}
      else Reading(end, indent, deeper) && found == if Awaits(d) then {d.name} else {}
  {
    if d.OneLine? {
      RunOne(s, OneLineRow(deeper, d.name, d.condition));
    } else {
      var named := Next(s, NameRow(deeper, d.name)).0;
      RunOne(s, NameRow(deeper, d.name));
      RunAppend(s, [NameRow(deeper, d.name)], d.attributes);
      if Misleading(d) {
        AttributesMisled(named, indent, deeper, d.attributes);
      } else {
        AttributesRead(named, indent, deeper, d.attributes);
      }
    }
  }

  lemma DependencyMisled(s: State, indent: nat, deeper: nat, d: Dependency)
    requires Misled(s, indent, deeper) && PlainDependency(deeper, d)
    ensures Misled(Run(s, DependencyRows(deeper, d)), indent, deeper) && Found(s, DependencyRows(deeper, d)) == {}
  {
    if d.OneLine? {
      RunOne(s, OneLineRow(deeper, d.name, d.condition));
    } else {
      var named := Next(s, NameRow(deeper, d.name)).0;
      RunOne(s, NameRow(deeper, d.name));
      RunAppend(s, [NameRow(deeper, d.name)], d.attributes);
      AttributesMisled(named, indent, deeper, d.attributes);
    }
  }

  /** Reading on, or misled already. */
  predicate ReadingOr(misled: bool, s: State, indent: nat, deeper: nat) {
    if misled then Misled(s, indent, deeper) else Reading(s, indent, deeper)
  }

  lemma OneDependency(misled: bool, s: State, indent: nat, deeper: nat, d: Dependency)
    requires ReadingOr(misled, s, indent, deeper) && PlainDependency(deeper, d)
    ensures ReadingOr(misled || Misleading(d), Run(s, DependencyRows(deeper, d)), indent, deeper)
    ensures Found(s, DependencyRows(deeper, d)) == if Awaits(d) && !misled && !Misleading(d) then {d.name} else {}
  {
    if misled {
      DependencyMisled(s, indent, deeper, d);
    } else {
      DependencyRead(s, indent, deeper, d);
    }
  }

  lemma {:induction false} DependenciesRead(s: State, indent: nat, deeper: nat, ds: seq<Dependency>)
    requires Reading(s, indent, deeper) && forall i | 0 <= i < |ds| :: PlainDependency(deeper, ds[i])
    ensures ReadingOr(AnyMisleading(ds), Run(s, DependenciesRows(deeper, ds)), indent, deeper)
    ensures Found(s, DependenciesRows(deeper, ds)) == Seen(ds)
    decreases |ds|
  {
    if ds == [] {
    } else {
      var n := |ds| - 1;
      DependenciesRead(s, indent, deeper, ds[..n]);
      RunAppend(s, DependenciesRows(deeper, ds[..n]), DependencyRows(deeper, ds[n]));
      OneDependency(AnyMisleading(ds[..n]), Run(s, DependenciesRows(deeper, ds[..n])), indent, deeper, ds[n]);
    }
  }

  // ----- Sections, services, documents -----

  /** Within a service. */
  predicate Within(s: State, serviceIndent: nat) {
    s.inServices && s.serviceIndent == serviceIndent && s.currentService != "" && s.servicesIndent < serviceIndent
  }

  /** Before something that stands at this indent. */
  predicate AtKey(s: State, serviceIndent: nat, first: nat) {
    Within(s, serviceIndent) && serviceIndent < first && (s.inDependsOn ==> first <= s.dependsIndent)
  }

  /** After a section: at most its own depends_on is still open. */
  predicate After(s: State, serviceIndent: nat, section: Section) {
    Within(s, serviceIndent) && (s.inDependsOn ==> !section.Lines? && section.at <= s.dependsIndent)
  }

  lemma {:induction false} LinesAreSkipped(s: State, serviceIndent: nat, indent: nat, rows: seq<Row>)
    requires serviceIndent < indent && PlainSection(indent, Lines(rows)) && AtKey(s, serviceIndent, First(Lines(rows)))
    ensures After(Run(s, rows), serviceIndent, Lines(rows)) && Found(s, rows) == {}
    decreases |rows|
  {
    var n := |rows| - 1;
    var init := rows[..n];
    assert init + [rows[n]] == rows;
    RunAppend(s, init, [rows[n]]);
    if n == 0 {
      assert init == [];
      assert Run(s, []) == s && Found(s, []) == {};
      RunOne(s, rows[0]);
    } else {
      assert forall i | 0 <= i < n :: init[i] == rows[i];
      LinesAreSkipped(s, serviceIndent, indent, init);
      RunOne(Run(s, init), rows[n]);
    }
  }

  lemma DependsOnRead(s: State, serviceIndent: nat, at: nat, deeper: nat, ds: seq<Dependency>)
    requires AtKey(s, serviceIndent, at) && PlainSection(at, DependsOn(at, deeper, ds))
    ensures After(Run(s, SectionRows(DependsOn(at, deeper, ds))), serviceIndent, DependsOn(at, deeper, ds))
    ensures Found(s, SectionRows(DependsOn(at, deeper, ds))) == Seen(ds)
  {
    var row, rows := NameRow(at, "depends_on"), DependenciesRows(deeper, ds);
    var inside := Next(s, row).0;
    assert Reading(inside, at, deeper) && Next(s, row).1 == "";
    RunOne(s, row);
    RunAppend(s, [row], rows);
    DependenciesRead(inside, at, deeper, ds);
    DeeperThan(serviceIndent, deeper, ds);
    KeepsService(inside, serviceIndent, rows);
  }

  /** In the list of a depends_on key, nothing is awaited. */
  predicate Listing(s: State, serviceIndent: nat, at: nat) {
    Within(s, serviceIndent) && serviceIndent < at && (s.inDependsOn ==> s.dependsIndent == at)
  }

  lemma {:induction false} ItemsAreSkipped(s: State, serviceIndent: nat, at: nat, items: seq<Row>)
    requires Listing(s, serviceIndent, at) && forall i | 0 <= i < |items| :: PlainItem(at, items[i])
    ensures Listing(Run(s, items), serviceIndent, at) && Found(s, items) == {}
    decreases |items|
  {
    if items != [] {
      var n := |items| - 1;
      ItemsAreSkipped(s, serviceIndent, at, items[..n]);
      assert items[..n] + [items[n]] == items;
      RunAppend(s, items[..n], [items[n]]);
      RunOne(Run(s, items[..n]), items[n]);
    }
  }

  lemma ListedRead(s: State, serviceIndent: nat, at: nat, items: seq<Row>)
    requires AtKey(s, serviceIndent, at) && PlainSection(at, Listed(at, items))
    ensures After(Run(s, SectionRows(Listed(at, items))), serviceIndent, Listed(at, items))
    ensures Found(s, SectionRows(Listed(at, items))) == {}
  {
    var row := NameRow(at, "depends_on");
    RunOne(s, row);
    RunAppend(s, [row], items);
    ItemsAreSkipped(Next(s, row).0, serviceIndent, at, items);
  }

  lemma SectionRead(s: State, serviceIndent: nat, indent: nat, section: Section)
    requires serviceIndent < indent && PlainSection(indent, section) && AtKey(s, serviceIndent, First(section))
    ensures After(Run(s, SectionRows(section)), serviceIndent, section)
    ensures Found(s, SectionRows(section)) == AnySeen(indent, section)
  {
    match section
    case Lines(rows) => LinesAreSkipped(s, serviceIndent, indent, rows);
    case Listed(at, items) => ListedRead(s, serviceIndent, at, items);
    case DependsOn(at, deeper, ds) => DependsOnRead(s, serviceIndent, at, deeper, ds);
  }

  predicate AllDeeper(limit: nat, rows: seq<Row>) {
    forall row | row in rows :: row.indent > limit
  }

  lemma DeeperAppend(limit: nat, a: seq<Row>, b: seq<Row>)
    requires AllDeeper(limit, a) && AllDeeper(limit, b)
    ensures AllDeeper(limit, a + b)
  {
  }

  lemma DependencyDeeper(limit: nat, deeper: nat, d: Dependency)
    requires limit < deeper && PlainDependency(deeper, d)
    ensures AllDeeper(limit, DependencyRows(deeper, d))
  {
    if d.Mapped? {
      forall row | row in d.attributes ensures row.indent > limit {
        var i :| 0 <= i < |d.attributes| && d.attributes[i] == row;
        assert PlainAttribute(deeper, d.attributes[i]);
      }
    }
  }

  lemma {:induction false} DeeperThan(limit: nat, deeper: nat, ds: seq<Dependency>)
    requires limit < deeper && forall i | 0 <= i < |ds| :: PlainDependency(deeper, ds[i])
    ensures AllDeeper(limit, DependenciesRows(deeper, ds))
    decreases |ds|
  {
    if ds != [] {
      var n := |ds| - 1;
      DeeperThan(limit, deeper, ds[..n]);
      DependencyDeeper(limit, deeper, ds[n]);
      DeeperAppend(limit, DependenciesRows(deeper, ds[..n]), DependencyRows(deeper, ds[n]));
    }
  }

  lemma {:induction false} KeepsService(s: State, serviceIndent: nat, rows: seq<Row>)
    requires s.inServices && s.serviceIndent == serviceIndent && s.servicesIndent < serviceIndent
    requires AllDeeper(serviceIndent, rows)
    ensures var end := Run(s, rows);
      end.inServices && end.serviceIndent == serviceIndent && end.servicesIndent == s.servicesIndent
      && end.currentService == s.currentService
    decreases |rows|
  {
    if rows != [] {
      var n := |rows| - 1;
      KeepsService(s, serviceIndent, rows[..n]);
      assert rows[n] in rows;
      assert rows[..n] + [rows[n]] == rows;
      RunAppend(s, rows[..n], [rows[n]]);
      RunOne(Run(s, rows[..n]), rows[n]);
    }
  }

  lemma PlainPrefix(indent: nat, sections: seq<Section>, n: nat)
    requires PlainSections(indent, sections) && n < |sections|
    ensures PlainSections(indent, sections[..n]) && PlainSection(indent, sections[n])
    ensures n > 0 ==> Follows(sections[..n][n - 1], sections[n])
  {
  }

  /** After these sections of a service. */
  predicate AfterAll(s: State, serviceIndent: nat, sections: seq<Section>) {
    if sections == [] then Within(s, serviceIndent) && !s.inDependsOn else After(s, serviceIndent, sections[|sections| - 1])
  }

  lemma ReadyForNext(s: State, serviceIndent: nat, indent: nat, sections: seq<Section>, next: Section)
    requires serviceIndent < indent && AfterAll(s, serviceIndent, sections) && PlainSection(indent, next)
    requires sections != [] ==> Follows(sections[|sections| - 1], next)
    ensures AtKey(s, serviceIndent, First(next))
  {
  }

  lemma {:induction false} SectionsRead(s: State, serviceIndent: nat, indent: nat, sections: seq<Section>)
    requires Within(s, serviceIndent) && !s.inDependsOn && serviceIndent < indent && PlainSections(indent, sections)
    ensures AfterAll(Run(s, SectionsRows(sections)), serviceIndent, sections)
    ensures Found(s, SectionsRows(sections)) == InSections(AnySeen, indent, sections)
    decreases |sections|
  {
    if sections == [] {
    } else {
      var n := |sections| - 1;
      var init := SectionsRows(sections[..n]);
      PlainPrefix(indent, sections, n);
      SectionsRead(s, serviceIndent, indent, sections[..n]);
      RunAppend(s, init, SectionRows(sections[n]));
      ReadyForNext(Run(s, init), serviceIndent, indent, sections[..n], sections[n]);
      SectionRead(Run(s, init), serviceIndent, indent, sections[n]);
    }
  }

  /** Between two services; none may have been met yet. */
  predicate AtService(s: State, servicesIndent: nat, serviceIndent: nat) {
    s.inServices && s.servicesIndent == servicesIndent < serviceIndent && (s.serviceIndent == serviceIndent || s.serviceIndent < 0)
  }

  lemma ServiceRead(s: State, servicesIndent: nat, indent: nat, service: Service)
    requires AtService(s, servicesIndent, indent) && PlainService(indent, service)
    ensures AtService(Run(s, ServiceRows(indent, service)), servicesIndent, indent)
    ensures Found(s, ServiceRows(indent, service)) == InSections(AnySeen, service.indent, service.sections)
  {
    var row, rows := NameRow(indent, service.name), SectionsRows(service.sections);
    var inside := Next(s, row).0;
    assert Next(s, row).1 == "" && Within(inside, indent) && !inside.inDependsOn;
    RunOne(s, row);
    RunAppend(s, [row], rows);
    SectionsRead(inside, indent, service.indent, service.sections);
    SectionsStayInServices(inside, indent, service.indent, service.sections);
  }

  predicate PlainServices(indent: nat, services: seq<Service>) {
    forall i | 0 <= i < |services| :: PlainService(indent, services[i])
  }

  lemma PlainServicesPrefix(indent: nat, services: seq<Service>, n: nat)
    requires PlainServices(indent, services) && n < |services|
    ensures PlainServices(indent, services[..n]) && PlainService(indent, services[n])
  {
  }

  lemma {:induction false} ServicesRead(s: State, servicesIndent: nat, indent: nat, services: seq<Service>)
    requires AtService(s, servicesIndent, indent) && PlainServices(indent, services)
    ensures AtService(Run(s, ServicesRows(indent, services)), servicesIndent, indent)
    ensures Found(s, ServicesRows(indent, services)) == InServices(AnySeen, services)
    decreases |services|
  {
    if services == [] {
    } else {
      var n := |services| - 1;
      var init := ServicesRows(indent, services[..n]);
      PlainServicesPrefix(indent, services, n);
      ServicesRead(s, servicesIndent, indent, services[..n]);
      RunAppend(s, init, ServiceRows(indent, services[n]));
      ServiceRead(Run(s, init), servicesIndent, indent, services[n]);
    }
  }

  lemma SectionsStayInServices(s: State, serviceIndent: nat, indent: nat, sections: seq<Section>)
    requires s.inServices && s.serviceIndent == serviceIndent < indent && s.servicesIndent < serviceIndent
    requires PlainSections(indent, sections)
    ensures Run(s, SectionsRows(sections)).servicesIndent == s.servicesIndent
  {
    SectionsDeeper(serviceIndent, indent, sections);
    KeepsService(s, serviceIndent, SectionsRows(sections));
  }

  lemma SectionDeeper(limit: nat, indent: nat, section: Section)
    requires limit < indent && PlainSection(indent, section)
    ensures AllDeeper(limit, SectionRows(section))
  {
    match section
    case DependsOn(at, deeper, ds) =>
      DeeperThan(limit, deeper, ds);
      DeeperAppend(limit, [NameRow(at, "depends_on")], DependenciesRows(deeper, ds));
    case Listed(at, items) =>
      forall row | row in items ensures row.indent > limit {
        var i :| 0 <= i < |items| && items[i] == row;
        assert PlainItem(at, items[i]);
      }
      DeeperAppend(limit, [NameRow(at, "depends_on")], items);
    case Lines(rows) =>
      forall row | row in rows ensures row.indent > limit {
        var i :| 0 <= i < |rows| && rows[i] == row;
        assert rows[i].indent >= indent;
      }
  }

  lemma {:induction false} SectionsDeeper(limit: nat, indent: nat, sections: seq<Section>)
    requires limit < indent && PlainSections(indent, sections)
    ensures AllDeeper(limit, SectionsRows(sections))
    decreases |sections|
  {
    if sections != [] {
      var n := |sections| - 1;
      PlainPrefix(indent, sections, n);
      SectionsDeeper(limit, indent, sections[..n]);
      SectionDeeper(limit, indent, sections[n]);
      DeeperAppend(limit, SectionsRows(sections[..n]), SectionRows(sections[n]));
    }
  }

  lemma {:induction false} Outside(s: State, rows: seq<Row>)
    requires !s.inServices && forall i | 0 <= i < |rows| :: !rows[i].services
    ensures Run(s, rows) == s && Found(s, rows) == {}
    decreases |rows|
  {
    if rows != [] {
      var n := |rows| - 1;
      assert forall i | 0 <= i < n :: rows[..n][i] == rows[i];
      Outside(s, rows[..n]);
      assert rows[..n] + [rows[n]] == rows;
      RunAppend(s, rows[..n], [rows[n]]);
      RunOne(s, rows[n]);
    }
  }

  lemma Leaving(s: State, servicesIndent: nat, rows: seq<Row>)
    requires s.inServices && s.servicesIndent == servicesIndent
    requires rows != [] ==> rows[0].indent <= servicesIndent
    requires forall i | 0 <= i < |rows| :: !rows[i].services
    ensures Found(s, rows) == {}
  {
    if rows == [] {
    } else {
      assert [rows[0]] + rows[1..] == rows;
      RunAppend(s, [rows[0]], rows[1..]);
      RunOne(s, rows[0]);
      Outside(Next(s, rows[0]).0, rows[1..]);
    }
  }

  /** On every plain rendering, whatever its indents, the scanner finds exactly the dependencies it can see. */
  lemma CompletedDependenciesOfARendering(doc: Document)
    requires PlainDocument(doc)
    ensures Found(Start(), Rows(doc)) == InServices(AnySeen, doc.services)
  {
    var header := NameRow(doc.indent, "services");
    var services := ServicesRows(doc.serviceIndent, doc.services);
    Outside(Start(), doc.before);
    RunAppend(Start(), doc.before, [header]);
    RunOne(Start(), header);
    var inside := Next(Start(), header).0;
    RunAppend(Start(), doc.before + [header], services);
    ServicesRead(inside, doc.indent, doc.serviceIndent, doc.services);
    RunAppend(Start(), doc.before + [header] + services, doc.after);
    Leaving(Run(inside, services), doc.indent, doc.after);
  }

  lemma {:induction false} AwaitedIsSeenOrHidden(ds: seq<Dependency>)
    ensures Awaited(ds) == Seen(ds) + Hidden(ds)
    ensures !AnyMisleading(ds) ==> Hidden(ds) == {}
    decreases |ds|
  {
    if ds != [] {
      AwaitedIsSeenOrHidden(ds[..|ds| - 1]);
    }
  }

  lemma {:induction false} SectionsUnion(f: Pick, g: Pick, h: Pick, indent: nat, sections: seq<Section>)
    requires forall x | x in sections :: f(indent, x) == g(indent, x) + h(indent, x)
    ensures InSections(f, indent, sections) == InSections(g, indent, sections) + InSections(h, indent, sections)
    decreases |sections|
  {
    if sections != [] {
      SectionsUnion(f, g, h, indent, sections[..|sections| - 1]);
    }
  }

  lemma {:induction false} ServicesUnion(f: Pick, g: Pick, h: Pick, services: seq<Service>)
    requires forall indent, x :: f(indent, x) == g(indent, x) + h(indent, x)
    ensures InServices(f, services) == InServices(g, services) + InServices(h, services)
    decreases |services|
  {
    if services != [] {
      var last := services[|services| - 1];
      ServicesUnion(f, g, h, services[..|services| - 1]);
      SectionsUnion(f, g, h, last.indent, last.sections);
    }
  }

  /** What is seen is seen in plain sight or buried; what is awaited is seen in plain sight or hidden. */
  lemma SeenAndAwaited(services: seq<Service>)
    ensures InServices(AnySeen, services) == InServices(OwnSeen, services) + InServices(Buried, services)
    ensures InServices(OwnAwaited, services) == InServices(OwnSeen, services) + InServices(OwnHidden, services)
  {
    ServicesUnion(AnySeen, OwnSeen, Buried, services);
    forall indent, x ensures OwnAwaited(indent, x) == OwnSeen(indent, x) + OwnHidden(indent, x) {
      if Own(indent, x) {
        AwaitedIsSeenOrHidden(x.dependencies);
      }
    }
    ServicesUnion(OwnAwaited, OwnSeen, OwnHidden, services);
  }

  /** No depends_on line is buried under another key, and no nested dependency of the service is called depends_on. */
  predicate NotMisleading(service: Service) {
    forall x | x in service.sections && x.DependsOn? :: Own(service.indent, x) && !AnyMisleading(x.dependencies)
  }

  lemma {:induction false} NothingHiddenInSections(pick: Pick, indent: nat, sections: seq<Section>)
    requires pick == OwnHidden || pick == Buried
    requires forall x | x in sections && x.DependsOn? :: Own(indent, x) && !AnyMisleading(x.dependencies)
    ensures InSections(pick, indent, sections) == {}
    decreases |sections|
  {
    if sections != [] {
      var last := sections[|sections| - 1];
      assert last in sections;
      NothingHiddenInSections(pick, indent, sections[..|sections| - 1]);
      if last.DependsOn? {
        AwaitedIsSeenOrHidden(last.dependencies);
      }
    }
  }

  lemma {:induction false} NothingHidden(pick: Pick, services: seq<Service>)
    requires pick == OwnHidden || pick == Buried
    requires forall x | x in services :: NotMisleading(x)
    ensures InServices(pick, services) == {}
    decreases |services|
  {
    if services != [] {
      var last := services[|services| - 1];
      assert NotMisleading(last);
      NothingHidden(pick, services[..|services| - 1]);
      NothingHiddenInSections(pick, last.indent, last.sections);
    }
  }

  /**
   * So it finds exactly the dependencies that some service awaits to completion if and only if each one hidden
   * behind a dependency called depends_on is also seen elsewhere, and each one seen below a depends_on line of
   * another key is also awaited. Without such dependencies and lines it always does.
   */
  lemma CompletedDependenciesExactly(doc: Document)
    requires PlainDocument(doc)
    ensures Found(Start(), Rows(doc)) == InServices(OwnAwaited, doc.services) <==>
      && InServices(OwnHidden, doc.services) <= InServices(AnySeen, doc.services)
      && InServices(Buried, doc.services) <= InServices(OwnAwaited, doc.services)
    ensures (forall x | x in doc.services :: NotMisleading(x)) ==> Found(Start(), Rows(doc)) == InServices(OwnAwaited, doc.services)
  {
    CompletedDependenciesOfARendering(doc);
    SeenAndAwaited(doc.services);
    UnionsAgree(InServices(OwnSeen, doc.services), InServices(OwnHidden, doc.services), InServices(Buried, doc.services));
    if forall x | x in doc.services :: NotMisleading(x) {
      NothingHidden(OwnHidden, doc.services);
      NothingHidden(Buried, doc.services);
    }
  }

  lemma UnionsAgree(seen: set<string>, hidden: set<string>, buried: set<string>)
    ensures seen + buried == seen + hidden <==> hidden <= seen + buried && buried <= seen + hidden
  {
    if seen + buried == seen + hidden {
      assert hidden <= seen + hidden && buried <= seen + buried;
    }
  }

  // ----- The services that are built -----

  predicate IsBuildRow(row: Row) {
    row.build && !row.dash
  }

  /** Some line of the service, at whatever depth, reads as a build key. */
  predicate HasBuildLine(service: Service) {
    exists row | row in SectionsRows(service.sections) :: IsBuildRow(row)
  }

  /** The first line of a service stands at the indent of its keys, and none stands further left. */
  predicate Aligned(service: Service) {
    var rows := SectionsRows(service.sections);
    (rows != [] ==> rows[0].indent == service.indent) && forall row | row in rows :: row.indent >= service.indent
  }

  /** The service has a build key of its own. */
  predicate HasBuildKey(service: Service) {
    exists row | row in SectionsRows(service.sections) :: IsBuildRow(row) && row.indent == service.indent
  }

  /** All this scanner asks of a rendering: each service's lines stand deeper than its name. */
  predicate IndentedService(indent: nat, service: Service) {
    service.name != "" && AllDeeper(indent, SectionsRows(service.sections))
  }

  predicate IndentedDocument(doc: Document) {
    && (forall i | 0 <= i < |doc.before| :: !doc.before[i].services)
    && doc.serviceIndent > doc.indent
    && (forall i | 0 <= i < |doc.services| :: IndentedService(doc.serviceIndent, doc.services[i]))
    && (doc.after != [] ==> doc.after[0].indent <= doc.indent)
  }

  lemma PlainIsIndented(doc: Document)
    requires PlainDocument(doc)
    ensures IndentedDocument(doc)
  {
    forall i | 0 <= i < |doc.services| ensures IndentedService(doc.serviceIndent, doc.services[i]) {
      SectionsDeeper(doc.serviceIndent, doc.services[i].indent, doc.services[i].sections);
    }
  }

  lemma {:induction false} FirstRowOfSections(sections: seq<Section>)
    requires sections != [] && SectionRows(sections[0]) != []
    ensures SectionsRows(sections) != [] && SectionsRows(sections)[0] == SectionRows(sections[0])[0]
    decreases |sections|
  {
    var n := |sections| - 1;
    if n == 0 {
      assert sections[..0] == [] && SectionsRows(sections) == [] + SectionRows(sections[0]);
    } else {
      FirstRowOfSections(sections[..n]);
    }
  }

  lemma PlainIsAligned(indent: nat, service: Service)
    requires PlainService(indent, service)
    ensures Aligned(service)
  {
    if service.sections != [] {
      assert PlainSection(service.indent, service.sections[0]);
      FirstRowOfSections(service.sections);
      SectionsDeeper(service.indent - 1, service.indent, service.sections);
    }
  }

  predicate Between(s: Builds, servicesIndent: nat, serviceIndent: nat) {
    s.inServices && !s.stopped && s.servicesIndent == servicesIndent < serviceIndent
    && (s.serviceIndent == serviceIndent || s.serviceIndent < 0)
  }

  lemma {:induction false} BuildLines(s: Builds, servicesIndent: nat, serviceIndent: nat, rows: seq<Row>)
    requires Between(s, servicesIndent, serviceIndent) && s.serviceIndent == serviceIndent && s.current != ""
    requires AllDeeper(serviceIndent, rows)
    ensures BuildRun(s, rows) == if exists row | row in rows :: IsBuildRow(row) then s.(builds := s.builds + {s.current}) else s
    decreases |rows|
  {
    if rows != [] {
      var n := |rows| - 1;
      assert rows == rows[..n] + [rows[n]];
      assert rows[n] in rows;
      BuildLines(s, servicesIndent, serviceIndent, rows[..n]);
    }
  }

  lemma ServiceBuilt(s: Builds, servicesIndent: nat, indent: nat, service: Service)
    requires Between(s, servicesIndent, indent) && IndentedService(indent, service)
    ensures var end := BuildRun(s, ServiceRows(indent, service));
      && Between(end, servicesIndent, indent)
      && end.known == s.known + {service.name}
      && end.builds == s.builds + if HasBuildLine(service) then {service.name} else {}
  {
    var row, rows := NameRow(indent, service.name), SectionsRows(service.sections);
    BuildRunOne(s, row);
    BuildRunAppend(s, [row], rows);
    BuildLines(BuildNext(s, row), servicesIndent, indent, rows);
  }

  function Names(services: seq<Service>): set<string> {
    set x | x in services :: x.name
  }

  function BuiltNames(services: seq<Service>): set<string> {
    set x | x in services && HasBuildLine(x) :: x.name
  }

  lemma OneMoreName(services: seq<Service>, service: Service)
    ensures Names(services + [service]) == Names(services) + {service.name}
    ensures BuiltNames(services + [service]) == BuiltNames(services) + if HasBuildLine(service) then {service.name} else {}
  {
    assert forall x :: x in services + [service] <==> x in services || x == service;
  }

  lemma {:induction false} ServicesBuilt(s: Builds, servicesIndent: nat, indent: nat, services: seq<Service>)
    requires Between(s, servicesIndent, indent) && forall i | 0 <= i < |services| :: IndentedService(indent, services[i])
    ensures var end := BuildRun(s, ServicesRows(indent, services));
      && Between(end, servicesIndent, indent)
      && end.known == s.known + Names(services) && end.builds == s.builds + BuiltNames(services)
    decreases |services|
  {
    if services != [] {
      var n := |services| - 1;
      var init, last := services[..n], services[n];
      assert services == init + [last];
      ServicesBuilt(s, servicesIndent, indent, init);
      BuildRunAppend(s, ServicesRows(indent, init), ServiceRows(indent, last));
      ServiceBuilt(BuildRun(s, ServicesRows(indent, init)), servicesIndent, indent, last);
      OneMoreName(init, last);
    }
  }

  lemma {:induction false} BuildOutside(s: Builds, rows: seq<Row>)
    requires !s.inServices && !s.stopped && forall i | 0 <= i < |rows| :: !rows[i].services
    ensures BuildRun(s, rows) == s
    decreases |rows|
  {
    if rows != [] {
      var n := |rows| - 1;
      assert forall i | 0 <= i < n :: rows[..n][i] == rows[i];
      BuildOutside(s, rows[..n]);
    }
  }

  lemma BuildLeaving(s: Builds, rows: seq<Row>)
    requires s.inServices && !s.stopped && (rows != [] ==> rows[0].indent <= s.servicesIndent)
    ensures var end := BuildRun(s, rows); end.known == s.known && end.builds == s.builds
  {
    if rows != [] {
      assert [rows[0]] + rows[1..] == rows;
      BuildRunAppend(s, [rows[0]], rows[1..]);
      BuildRunOne(s, rows[0]);
      StoppedStays(BuildNext(s, rows[0]), rows[1..]);
    }
  }

  /** On every such rendering the scanner finds all service names, and the services with a line that reads as a build key. */
  lemma BuildsOfARendering(doc: Document)
    requires IndentedDocument(doc)
    ensures var end := BuildRun(BuildStart(), Rows(doc));
      && end.known == Names(doc.services) && end.builds == BuiltNames(doc.services)
  {
    var header := NameRow(doc.indent, "services");
    var services := ServicesRows(doc.serviceIndent, doc.services);
    BuildOutside(BuildStart(), doc.before);
    BuildRunAppend(BuildStart(), doc.before, [header]);
    BuildRunOne(BuildStart(), header);
    var inside := BuildNext(BuildStart(), header);
    BuildRunAppend(BuildStart(), doc.before + [header], services);
    ServicesBuilt(inside, doc.indent, doc.serviceIndent, doc.services);
    BuildRunAppend(BuildStart(), doc.before + [header] + services, doc.after);
    BuildLeaving(BuildRun(inside, services), doc.after);
  }

  /**
   * That is exactly the services with a build key of their own if and only if no other service has a deeper line,
   * such as a dependency called build, that reads as one.
   */
  lemma BuildsExactly(doc: Document)
    requires IndentedDocument(doc) && forall x | x in doc.services :: Aligned(x)
    requires forall x, y | x in doc.services && y in doc.services && x.name == y.name :: x == y
    ensures BuildRun(BuildStart(), Rows(doc)).builds == (set x | x in doc.services && HasBuildKey(x) :: x.name) <==>
      (forall x | x in doc.services && HasBuildLine(x) :: HasBuildKey(x))
  {
    BuildsOfARendering(doc);
    var found := BuiltNames(doc.services);
    var own := set x | x in doc.services && HasBuildKey(x) :: x.name;
    if found == own {
      forall x | x in doc.services && HasBuildLine(x) ensures HasBuildKey(x) {
        assert x.name in found;
      }
    }
  }

  // ----- Where it goes wrong -----

  /** One service with one key. */
  function OneService(name: string, section: Section): Document {
    Document([], 0, 2, [Service(name, 4, [section])], [])
  }

  lemma OneServiceSees(pick: Pick, name: string, section: Section)
    ensures InServices(pick, OneService(name, section).services) == pick(4, section)
  {
    assert [section][..0] == [] && [Service(name, 4, [section])][..0] == [];
    assert InSections(pick, 4, []) == {} && InServices(pick, []) == {};
  }

  lemma TwoDependencies(a: Dependency, b: Dependency)
    ensures AnyMisleading([a, b]) == (Misleading(a) || Misleading(b))
    ensures Seen([a, b]) == (if Awaits(a) && !Misleading(a) then {a.name} else {}) +
                            (if Awaits(b) && !Misleading(a) && !Misleading(b) then {b.name} else {})
    ensures Awaited([a, b]) == (if Awaits(a) then {a.name} else {}) + (if Awaits(b) then {b.name} else {})
  {
    assert [a, b][..1] == [a] && [a][..0] == [];
    assert !AnyMisleading([]) && Seen([]) == {} && Awaited([]) == {};
    assert Seen([a]) == if Awaits(a) && !Misleading(a) then {a.name} else {};
  }

  /** A job awaited after a dependency called depends_on is not found. */
  lemma JobBehindDependsOnIsMissed(name: string, job: string)
    requires name != "" && job != ""
    ensures var doc := OneService(name, DependsOn(4, 6, [Mapped("depends_on", []), OneLine(job, COMPLETED)]));
      && Found(Start(), Rows(doc)) == {} && InServices(OwnAwaited, doc.services) == {job}
  {
    var section := DependsOn(4, 6, [Mapped("depends_on", []), OneLine(job, COMPLETED)]);
    CompletedDependenciesOfARendering(OneService(name, section));
    OneServiceSees(AnySeen, name, section);
    OneServiceSees(OwnAwaited, name, section);
    TwoDependencies(Mapped("depends_on", []), OneLine(job, COMPLETED));
  }

  lemma OneJob(other: string, job: string)
    ensures var ds := [OneLine(other, ""), OneLine(job, COMPLETED)]; Seen(ds) == {job} && Awaited(ds) == {job}
  {
    TwoDependencies(OneLine(other, ""), OneLine(job, COMPLETED));
  }

  /** One service with a key of some kind and, deeper below it, a depends_on line. */
  function Burying(name: string, key: string, ds: seq<Dependency>): Document {
    Document([], 0, 2, [Service(name, 4, [Lines([NameRow(4, key)]), DependsOn(6, 8, ds)])], [])
  }

  lemma BuryingIsPlain(name: string, key: string, ds: seq<Dependency>)
    requires name != "" && key != "depends_on" && forall i | 0 <= i < |ds| :: PlainDependency(8, ds[i])
    ensures PlainDocument(Burying(name, key, ds))
  {
    var sections := [Lines([NameRow(4, key)]), DependsOn(6, 8, ds)];
    assert PlainSection(4, sections[0]) && PlainSection(4, sections[1]) && Follows(sections[0], sections[1]);
    assert PlainService(2, Service(name, 4, sections));
  }

  lemma BuryingSees(pick: Pick, name: string, key: string, ds: seq<Dependency>)
    ensures InServices(pick, Burying(name, key, ds).services) == pick(4, Lines([NameRow(4, key)])) + pick(4, DependsOn(6, 8, ds))
  {
    var first: Section, second: Section := Lines([NameRow(4, key)]), DependsOn(6, 8, ds);
    var services := Burying(name, key, ds).services;
    assert [first, second][..1] == [first] && [first][..0] == [] && services[..0] == [];
    assert InSections(pick, 4, []) == {} && InServices(pick, []) == {};
    assert InSections(pick, 4, [first]) == pick(4, first);
  }

  /** A job below a depends_on line that belongs to another key is found although nobody awaits it. */
  lemma BuriedJobIsFound(name: string, key: string, job: string, other: string)
    requires name != "" && key != "depends_on" && job != "" && other != ""
    ensures var doc := Burying(name, key, [OneLine(other, ""), OneLine(job, COMPLETED)]);
      && Found(Start(), Rows(doc)) == {job} && InServices(OwnAwaited, doc.services) == {}
  {
    var ds := [OneLine(other, ""), OneLine(job, COMPLETED)];
    BuryingIsPlain(name, key, ds);
    CompletedDependenciesOfARendering(Burying(name, key, ds));
    BuryingSees(AnySeen, name, key, ds);
    BuryingSees(OwnAwaited, name, key, ds);
    OneJob(other, job);
  }

  lemma RowsOfOneDependency(dependency: Dependency, row: Row)
    requires DependencyRows(6, dependency) == [row]
    ensures SectionsRows([DependsOn(4, 6, [dependency])]) == [NameRow(4, "depends_on"), row]
  {
    var section: Section := DependsOn(4, 6, [dependency]);
    assert [dependency][..0] == [] && [section][..0] == [];
    assert DependenciesRows(6, [dependency]) == [] + [row];
    assert SectionsRows([section]) == [] + SectionRows(section);
  }

  lemma BuiltByALine(name: string, section: Section, row: Row)
    requires IndentedDocument(OneService(name, section)) && row in SectionsRows([section]) && IsBuildRow(row)
    ensures BuildRun(BuildStart(), Rows(OneService(name, section))).builds == {name}
  {
    var doc := OneService(name, section);
    BuildsOfARendering(doc);
    assert HasBuildLine(doc.services[0]) && doc.services == [doc.services[0]];
  }

  /** A service that depends on one called build counts as built. */
  lemma DependencyCalledBuild(name: string)
    requires name != ""
    ensures var doc := OneService(name, DependsOn(4, 6, [Mapped("build", [])]));
      && BuildRun(BuildStart(), Rows(doc)).builds == {name} && !HasBuildKey(doc.services[0])
  {
    var dependency: Dependency := Mapped("build", []);
    RowsOfOneDependency(dependency, NameRow(6, "build"));
    BuiltByALine(name, DependsOn(4, 6, [dependency]), NameRow(6, "build"));
  }
}
