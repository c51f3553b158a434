/**
 * Writing the execution configuration of one case: which template configuration is edited, how the patch is merged
 * into its document, and which one the runner then selects.
 */
module CaseConfig {
  import opened Options
  import T = Text

  /** A JSON value; documents and the mappings in them are kept apart from everything else. */
  datatype Value = Str(text: string) | Object(fields: map<string, Value>) | OtherJson(code: int)

  type Fields = map<string, Value>

  /** The stored JSON of a configuration: blank, not decodable, or a document. */
  datatype Stored = Blank | Malformed | Document(doc: Fields)

  datatype Config = Config(id: string, scopeType: string, scopeID: string, workflowID: string, status: string, json: Stored, other: int)

  datatype ApiCase = ApiCase(id: string, nodeID: string, status: string, overrides: Fields, other: int)

  datatype Node = Node(id: string, verb: string, path: string)

  datatype Binding = Binding(workflowID: string, stepID: string, caseID: string)

  datatype Catalog = Catalog(configs: seq<Config>, cases: seq<ApiCase>, nodes: seq<Node>, bindings: seq<Binding>)

  /** The fields of the patch; what is None, blank or empty is not touched. */
  datatype Patch = Patch(
    verb: string, nodeID: string, path: string, body: Option<Value>, codes: Option<Value>, contains: Option<Value>,
    lacks: Option<Value>, headers: Fields, auth: Option<Value>, signed: bool, trace: string,
    inputs: Option<Value>, exports: Option<Value>)

  datatype Request = Request(
    caseID: string, workflowID: string, stepID: string, configID: string, status: string, patch: Patch, overrides: Option<Fields>)

  /**
   * The text functions the code relies on: trimming, the status test of step scopes, the text of a JSON value, the
   * id made from the names, the known case statuses, and the validation of the edited case.
   */
  datatype Words = Words(
    trim: string -> string, active: string -> bool, textOf: Value -> string, fallback: (string, string, string) -> string,
    normalize: string -> Option<string>, valid: (Catalog, ApiCase) -> bool)

  /** What is used of them: they are idempotent, and an id made from names is not empty. */
  ghost predicate WellBehaved(w: Words) {
    && (forall s :: w.trim(w.trim(s)) == w.trim(s))
    && w.trim("") == "" && w.trim("case") == "case" && w.trim("step") == "step" && w.trim("active") == "active" && w.trim("GET") == "GET"
    && (forall s :: w.textOf(Str(s)) == s)
    && (forall a, b, c :: w.fallback(a, b, c) != "")
    && (forall s, t :: w.normalize(s) == Some(t) ==> w.normalize(t) == Some(t))
  }

  /** The same with the trimming that is used, Go's TrimSpace. */
  ghost predicate GoWords(w: Words) {
    && w.trim == T.TrimSpace
    && (forall s :: w.textOf(Str(s)) == s)
    && (forall a, b, c :: w.fallback(a, b, c) != "")
    && (forall s, t :: w.normalize(s) == Some(t) ==> w.normalize(t) == Some(t))
  }

  lemma TrimSpaceSuits(w: Words)
    requires GoWords(w)
    ensures WellBehaved(w)
  {
    Word("");
    Word("case");
    Word("step");
    Word("active");
    Word("GET");
  }

  lemma Word(s: string)
    requires s in {"", "case", "step", "active", "GET"}
    ensures T.TrimSpace(s) == s
  {
    assert T.Trimmed(s);
  }

  predicate StepScope(w: Words, q: Request) {
    w.trim(q.workflowID) != "" && w.trim(q.stepID) != ""
  }

  predicate CaseScopeType(w: Words, scopeType: string) {
    var t := w.trim(scopeType);
    t == "" || t == "case" || t == "api-case"
  }

  function Lookup(fields: Fields, key: string): Option<Value> {
    if key in fields then Some(fields[key]) else None
  }

  function TextAt(w: Words, fields: Fields, key: string): string {
    if key in fields then w.textOf(fields[key]) else ""
  }

  function ObjectAt(fields: Fields, key: string): Fields {
    if key in fields && fields[key].Object? then fields[key].fields else map[]
  }

  /** The document is for the case and names a method, a path or a node. */
  predicate DocContains(w: Words, doc: Fields, caseID: string) {
    && Lookup(doc, "caseId") == Some(Str(caseID))
    && "caseExecution" in doc && doc["caseExecution"].Object?
    && var execution := doc["caseExecution"].fields;
    TextAt(w, execution, "method") != "" || TextAt(w, execution, "path") != "" || TextAt(w, execution, "nodeId") != ""
  }

  /** configContainsCaseExecution. */
  predicate Contains(w: Words, c: Config, caseID: string) {
    c.json.Document? && DocContains(w, c.json.doc, caseID)
  }

  predicate MatchesStep(w: Words, q: Request, c: Config) {
    && w.active(c.status) && w.trim(c.scopeType) == "step"
    && w.trim(c.workflowID) == w.trim(q.workflowID) && w.trim(c.scopeID) == w.trim(q.stepID)
    && Contains(w, c, q.caseID)
  }

  predicate MatchesCase(w: Words, q: Request, c: Config) {
    && (c.status == "" || c.status == "active") && CaseScopeType(w, c.scopeType)
    && (c.scopeID == "" || c.scopeID == q.caseID) && Contains(w, c, q.caseID)
  }

  /** The id of the first configuration that matches, or "". */
  function FirstID(configs: seq<Config>, accepts: Config -> bool): string {
    if configs == [] then ""
    else if accepts(configs[0]) then configs[0].id
    else FirstID(configs[1..], accepts)
  }

  function StepMatcher(w: Words, q: Request): Config -> bool {
    c => MatchesStep(w, q, c)
  }

  function CaseMatcher(w: Words, q: Request): Config -> bool {
    c => MatchesCase(w, q, c)
  }

  function StepID(w: Words, configs: seq<Config>, q: Request): string {
    if StepScope(w, q) then FirstID(configs, StepMatcher(w, q)) else ""
  }

  function SelectedID(w: Words, configs: seq<Config>, q: Request): string {
    var id := StepID(w, configs, q);
    if id != "" then id else FirstID(configs, CaseMatcher(w, q))
  }

  function IndexOfID(configs: seq<Config>, id: string): (i: nat)
    ensures i <= |configs| && (i < |configs| ==> configs[i].id == id)
    ensures forall j | 0 <= j < i :: configs[j].id != id
  {
    if configs == [] || configs[0].id == id then 0 else 1 + IndexOfID(configs[1..], id)
  }

  function Upserted(configs: seq<Config>, next: Config): seq<Config> {
    var i := IndexOfID(configs, next.id);
    if i < |configs| then configs[i := next] else configs + [next]
  }

  function TargetID(w: Words, configs: seq<Config>, q: Request): string {
    var explicit := w.trim(q.configID);
    if explicit != "" then explicit
    else
      var found := if StepScope(w, q) then StepID(w, configs, q) else SelectedID(w, configs, q);
      if found != "" then found else w.fallback(q.caseID, q.workflowID, q.stepID)
  }

  /** prepareCaseExecutionTemplateConfig, for the configuration already found under the id, if any. */
  function Prepare(w: Words, existing: Option<Config>, id: string, q: Request): Config {
    var base := if existing.Some? then existing.value.(id := id) else Config(id, "", "", "", "", Blank, 0);
    var scoped :=
      if StepScope(w, q) then base.(scopeType := "step", workflowID := w.trim(q.workflowID), scopeID := w.trim(q.stepID))
      else if existing.None? || !CaseScopeType(w, base.scopeType) then base.(scopeType := "case", workflowID := "", scopeID := q.caseID)
      else base;
    if w.trim(q.status) != "" then scoped.(status := w.trim(q.status))
    else if existing.None? || w.trim(scoped.status) == "" then scoped.(status := "active")
    else scoped
  }

  function First3(w: Words, a: string, b: string, c: string): string {
    if w.trim(a) != "" then a else if w.trim(b) != "" then b else if w.trim(c) != "" then c else ""
  }

  function SetIf(fields: Fields, key: string, value: Option<Value>): Fields {
    if value.Some? then fields[key := value.value] else fields
  }

  /** The defaults that fill in what neither the patch nor the document tells. */
  datatype Defaults = Defaults(verb: string, nodeID: string, path: string)

  /** What the patch sets whatever the document holds. */
  function FixedPart(p: Patch): Fields {
    var f1 := SetIf(map[], "body", p.body);
    var f2 := SetIf(f1, "expectedHttpCodes", p.codes);
    var f3 := SetIf(f2, "expectedResponseContains", p.contains);
    var f4 := SetIf(f3, "expectedResponseNotContains", p.lacks);
    var f5 := SetIf(f4, "auth", p.auth);
    var f6 := SetIf(f5, "signed", if p.signed then Some(OtherJson(1)) else None);
    SetIf(f6, "traceEndpoint", if p.trace == "" then None else Some(Str(p.trace)))
  }

  function HeaderPart(execution: Fields, headers: Fields): Fields {
    if headers == map[] then map[] else map["headers" := Object(ObjectAt(execution, "headers") + headers)]
  }

  function TargetPart(w: Words, execution: Fields, p: Patch, d: Defaults): Fields {
    map["method" := Str(First3(w, p.verb, TextAt(w, execution, "method"), d.verb)),
        "nodeId" := Str(First3(w, p.nodeID, TextAt(w, execution, "nodeId"), d.nodeID)),
        "path" := Str(First3(w, p.path, TextAt(w, execution, "path"), d.path))]
  }

  /** Targets, headers and the fixed part laid over the document's execution, key by key. */
  function Overlay(w: Words, execution: Fields, p: Patch, d: Defaults, fixed: Fields): Fields {
    execution + TargetPart(w, execution, p, d) + HeaderPart(execution, p.headers) + fixed
  }

  function MergedExecution(w: Words, execution: Fields, p: Patch, d: Defaults): Fields {
    Overlay(w, execution, p, d, FixedPart(p))
  }

  lemma SetOverlay(base: Fields, over: Fields, key: string, value: Option<Value>)
    ensures SetIf(base + over, key, value) == base + SetIf(over, key, value)
  {
  }

  lemma SetUnder(base: Fields, over: Fields, key: string, value: Value)
    requires key !in over
    ensures (base + over)[key := value] == base[key := value] + over
    ensures ObjectAt(base + over, key) == ObjectAt(base, key)
  {
  }

  /** The execution part of the document, edited key by key. */
  method MergeExecution(w: Words, execution: Fields, p: Patch, d: Defaults) returns (e: Fields)
    ensures e == MergedExecution(w, execution, p, d)
  {
    e := SetTargets(w, execution, p, d);
    ghost var base, over: Fields := e, map[];
    assert e == base + over;
    SetOverlay(base, over, "body", p.body);
    e, over := SetIf(e, "body", p.body), SetIf(over, "body", p.body);
    SetOverlay(base, over, "expectedHttpCodes", p.codes);
    e, over := SetIf(e, "expectedHttpCodes", p.codes), SetIf(over, "expectedHttpCodes", p.codes);
    SetOverlay(base, over, "expectedResponseContains", p.contains);
    e, over := SetIf(e, "expectedResponseContains", p.contains), SetIf(over, "expectedResponseContains", p.contains);
    SetOverlay(base, over, "expectedResponseNotContains", p.lacks);
    e, over := SetIf(e, "expectedResponseNotContains", p.lacks), SetIf(over, "expectedResponseNotContains", p.lacks);
    if p.headers != map[] {
      SetUnder(base, over, "headers", Object(ObjectAt(e, "headers") + p.headers));
      e := e["headers" := Object(ObjectAt(e, "headers") + p.headers)];
      HeadersLaidOver(w, execution, p, d, base);
    }
    base := execution + TargetPart(w, execution, p, d) + HeaderPart(execution, p.headers);
    SetOverlay(base, over, "auth", p.auth);
    e, over := SetIf(e, "auth", p.auth), SetIf(over, "auth", p.auth);
    var signed := if p.signed then Some(OtherJson(1)) else None;
    SetOverlay(base, over, "signed", signed);
    e, over := SetIf(e, "signed", signed), SetIf(over, "signed", signed);
    var trace := if p.trace == "" then None else Some(Str(p.trace));
    SetOverlay(base, over, "traceEndpoint", trace);
    e, over := SetIf(e, "traceEndpoint", trace), SetIf(over, "traceEndpoint", trace);
  }

  method SetTargets(w: Words, execution: Fields, p: Patch, d: Defaults) returns (e: Fields)
    ensures e == execution + TargetPart(w, execution, p, d)
  {
    e := execution["method" := Str(First3(w, p.verb, TextAt(w, execution, "method"), d.verb))];
    e := e["nodeId" := Str(First3(w, p.nodeID, TextAt(w, e, "nodeId"), d.nodeID))];
    e := e["path" := Str(First3(w, p.path, TextAt(w, e, "path"), d.path))];
  }

  lemma HeadersLaidOver(w: Words, execution: Fields, p: Patch, d: Defaults, base: Fields)
    requires base == execution + TargetPart(w, execution, p, d) && p.headers != map[]
    ensures base["headers" := Object(ObjectAt(base, "headers") + p.headers)] == base + HeaderPart(execution, p.headers)
  {
    assert ObjectAt(base, "headers") == ObjectAt(execution, "headers");
  }

  /** The document after the patch, or None if it cannot be decoded. */
  function Merged(w: Words, json: Stored, caseID: string, p: Patch, d: Defaults): Option<Fields> {
    if json.Malformed? then None
    else
      var doc: Fields := if json.Document? then json.doc else map[];
      Some(WithExecution(doc, caseID, MergedExecution(w, ObjectAt(doc, "caseExecution"), p, d), p.inputs, p.exports))
  }

  function WithExecution(doc: Fields, caseID: string, execution: Fields, inputs: Option<Value>, exports: Option<Value>): Fields {
    SetIf(SetIf(doc["caseId" := Str(caseID)]["caseExecution" := Object(execution)], "inputs", inputs), "exports", exports)
  }

  /** mergeCaseExecutionConfigJSON. */
  method Merge(w: Words, json: Stored, caseID: string, p: Patch, d: Defaults) returns (merged: Option<Fields>)
    ensures merged == Merged(w, json, caseID, p, d)
  {
    if json.Malformed? {
      return None;
    }
    var doc: Fields := if json.Document? then json.doc else map[];
    var execution := MergeExecution(w, ObjectAt(doc, "caseExecution"), p, d);
    doc := doc["caseId" := Str(caseID)];
    doc := doc["caseExecution" := Object(execution)];
    doc := SetIf(doc, "inputs", p.inputs);
    doc := SetIf(doc, "exports", p.exports);
    return Some(doc);
  }

  // ----- Merging -----

  predicate FixedKey(key: string) {
    key in {"body", "expectedHttpCodes", "expectedResponseContains", "expectedResponseNotContains", "auth", "signed", "traceEndpoint"}
  }

  lemma FixedKeys(p: Patch)
    ensures forall key | key in FixedPart(p) :: FixedKey(key)
    ensures !FixedKey("method") && !FixedKey("nodeId") && !FixedKey("path") && !FixedKey("headers")
  {
  }

  /** A field the patch does not mention is what it was. */
  lemma UnpatchedFieldsStay(w: Words, execution: Fields, p: Patch, d: Defaults, key: string)
    requires key !in {"method", "nodeId", "path"} && key !in FixedPart(p) && (key == "headers" ==> p.headers == map[])
    ensures Lookup(MergedExecution(w, execution, p, d), key) == Lookup(execution, key)
  {
  }

  /** A part that leaves the targets and the headers alone. */
  predicate LeavesTargets(fixed: Fields) {
    "method" !in fixed && "nodeId" !in fixed && "path" !in fixed && "headers" !in fixed
  }

  lemma FixedPartLeavesTargets(p: Patch)
    ensures LeavesTargets(FixedPart(p))
  {
    FixedKeys(p);
  }

  lemma OverlaidTargets(w: Words, execution: Fields, p: Patch, d: Defaults, fixed: Fields)
    requires LeavesTargets(fixed)
    ensures var once := Overlay(w, execution, p, d, fixed);
      && Lookup(once, "method") == Some(TargetPart(w, execution, p, d)["method"])
      && Lookup(once, "nodeId") == Some(TargetPart(w, execution, p, d)["nodeId"])
      && Lookup(once, "path") == Some(TargetPart(w, execution, p, d)["path"])
      && (p.headers != map[] ==> Lookup(once, "headers") == Some(Object(ObjectAt(execution, "headers") + p.headers)))
  {
  }

  /** A target the patch leaves blank is what it was, unless that was blank too. */
  lemma UnpatchedTargetsStay(w: Words, execution: Fields, p: Patch, d: Defaults)
    requires WellBehaved(w)
    ensures var merged := MergedExecution(w, execution, p, d);
      && (w.trim(p.verb) == "" && w.trim(TextAt(w, execution, "method")) != "" ==> TextAt(w, merged, "method") == TextAt(w, execution, "method"))
      && (w.trim(p.nodeID) == "" && w.trim(TextAt(w, execution, "nodeId")) != "" ==> TextAt(w, merged, "nodeId") == TextAt(w, execution, "nodeId"))
      && (w.trim(p.path) == "" && w.trim(TextAt(w, execution, "path")) != "" ==> TextAt(w, merged, "path") == TextAt(w, execution, "path"))
  {
    FixedPartLeavesTargets(p);
    OverlaidTargets(w, execution, p, d, FixedPart(p));
  }

  lemma First3Twice(w: Words, a: string, b: string, c: string)
    ensures First3(w, a, First3(w, a, b, c), c) == First3(w, a, b, c)
  {
  }

  lemma OverlayTwice(w: Words, execution: Fields, p: Patch, d: Defaults, fixed: Fields)
    requires WellBehaved(w) && LeavesTargets(fixed)
    ensures var once := Overlay(w, execution, p, d, fixed); Overlay(w, once, p, d, fixed) == once
  {
    var once := Overlay(w, execution, p, d, fixed);
    OverlaidTargets(w, execution, p, d, fixed);
    First3Twice(w, p.verb, TextAt(w, execution, "method"), d.verb);
    First3Twice(w, p.nodeID, TextAt(w, execution, "nodeId"), d.nodeID);
    First3Twice(w, p.path, TextAt(w, execution, "path"), d.path);
    assert TargetPart(w, once, p, d) == TargetPart(w, execution, p, d);
    HeadersTwice(execution, once, p.headers);
    LaidOverAgain(execution, TargetPart(w, execution, p, d), HeaderPart(execution, p.headers), fixed);
  }

  lemma LaidOverAgain(a: Fields, b: Fields, c: Fields, d: Fields)
    ensures (a + b + c + d) + b + c + d == a + b + c + d
  {
  }

  lemma HeadersTwice(execution: Fields, once: Fields, headers: Fields)
    requires headers != map[] ==> Lookup(once, "headers") == Some(Object(ObjectAt(execution, "headers") + headers))
    ensures HeaderPart(once, headers) == HeaderPart(execution, headers)
  {
    if headers != map[] {
      var h := ObjectAt(execution, "headers");
      assert h + headers + headers == h + headers;
    }
  }

  lemma WithExecutionTwice(doc: Fields, caseID: string, execution: Fields, inputs: Option<Value>, exports: Option<Value>)
    ensures var once := WithExecution(doc, caseID, execution, inputs, exports);
      && WithExecution(once, caseID, execution, inputs, exports) == once
      && Lookup(once, "caseId") == Some(Str(caseID)) && Lookup(once, "caseExecution") == Some(Object(execution))
  {
    var once := WithExecution(doc, caseID, execution, inputs, exports);
    assert once["caseId" := Str(caseID)]["caseExecution" := Object(execution)] == once;
    assert SetIf(once, "inputs", inputs) == once && SetIf(once, "exports", exports) == once;
  }

  /** Merging the same patch twice is merging it once. */
  lemma MergeTwice(w: Words, json: Stored, caseID: string, p: Patch, d: Defaults)
    requires WellBehaved(w) && Merged(w, json, caseID, p, d).Some?
    ensures var once := Merged(w, json, caseID, p, d).value; Merged(w, Document(once), caseID, p, d) == Some(once)
  {
    var doc: Fields := if json.Document? then json.doc else map[];
    var before := ObjectAt(doc, "caseExecution");
    FixedPartLeavesTargets(p);
    OverlayTwice(w, before, p, d, FixedPart(p));
    WithExecutionTwice(doc, caseID, MergedExecution(w, before, p, d), p.inputs, p.exports);
  }

  /** A merged document always names its case and a request target, as long as there is a default method. */
  lemma MergedIsSelectable(w: Words, json: Stored, p: Patch, d: Defaults, caseID: string)
    requires WellBehaved(w) && w.trim(d.verb) != "" && Merged(w, json, caseID, p, d).Some?
    ensures DocContains(w, Merged(w, json, caseID, p, d).value, caseID)
  {
    var doc: Fields := if json.Document? then json.doc else map[];
    var before := ObjectAt(doc, "caseExecution");
    FixedPartLeavesTargets(p);
    OverlaidTargets(w, before, p, d, FixedPart(p));
    WithExecutionTwice(doc, caseID, MergedExecution(w, before, p, d), p.inputs, p.exports);
  }

  // ----- What arrives in the document -----

  /** A request target: the patch's unless blank, else the stored one unless blank, else the default unless blank. */
  predicate TargetArrives(w: Words, patched: string, before: string, default_: string, after: Option<Value>) {
    after == Some(Str(
      if w.trim(patched) != "" then patched else if w.trim(before) != "" then before else if w.trim(default_) != "" then default_ else ""))
  }

  ghost predicate TargetsArrive(w: Words, p: Patch, d: Defaults, before: Fields, after: Fields) {
    && TargetArrives(w, p.verb, TextAt(w, before, "method"), d.verb, Lookup(after, "method"))
    && TargetArrives(w, p.nodeID, TextAt(w, before, "nodeId"), d.nodeID, Lookup(after, "nodeId"))
    && TargetArrives(w, p.path, TextAt(w, before, "path"), d.path, Lookup(after, "path"))
  }

  /** The value given for a field, if any, and otherwise the stored one. */
  predicate FieldArrives(key: string, given: Option<Value>, before: Fields, after: Fields) {
    Lookup(after, key) == if given.Some? then given else Lookup(before, key)
  }

  ghost predicate FieldsArrive(p: Patch, before: Fields, after: Fields) {
    && FieldArrives("body", p.body, before, after)
    && FieldArrives("expectedHttpCodes", p.codes, before, after)
    && FieldArrives("expectedResponseContains", p.contains, before, after)
    && FieldArrives("expectedResponseNotContains", p.lacks, before, after)
    && FieldArrives("auth", p.auth, before, after)
    && FieldArrives("signed", if p.signed then Some(OtherJson(1)) else None, before, after)
    && FieldArrives("traceEndpoint", if p.trace != "" then Some(Str(p.trace)) else None, before, after)
  }

  ghost predicate HeadersArrive(p: Patch, before: Fields, after: Fields) {
    && (p.headers == map[] ==> Lookup(after, "headers") == Lookup(before, "headers"))
    && (forall k | k in p.headers :: Lookup(ObjectAt(after, "headers"), k) == Some(p.headers[k]))
    && (forall k | k in ObjectAt(before, "headers") && k !in p.headers ::
          Lookup(ObjectAt(after, "headers"), k) == Some(ObjectAt(before, "headers")[k]))
  }

  /** Every field of the patch is under its own key, as given, and what was stored stays where the patch is silent. */
  ghost predicate ExecutionArrives(w: Words, p: Patch, d: Defaults, before: Fields, after: Fields) {
    TargetsArrive(w, p, d, before, after) && FieldsArrive(p, before, after) && HeadersArrive(p, before, after)
  }

  /** The whole document: the case, its execution, inputs and exports, and everything else as it was. */
  ghost predicate DocumentArrives(w: Words, caseID: string, p: Patch, d: Defaults, before: Fields, after: Fields) {
    && Lookup(after, "caseId") == Some(Str(caseID))
    && "caseExecution" in after && after["caseExecution"].Object?
    && ExecutionArrives(w, p, d, ObjectAt(before, "caseExecution"), after["caseExecution"].fields)
    && Lookup(after, "inputs") == (if p.inputs.Some? then p.inputs else Lookup(before, "inputs"))
    && Lookup(after, "exports") == (if p.exports.Some? then p.exports else Lookup(before, "exports"))
    && (forall key | key !in {"caseId", "caseExecution", "inputs", "exports"} :: Lookup(after, key) == Lookup(before, key))
  }

  /** A part that holds exactly what the patch gives, field by field. */
  ghost predicate HoldsPatch(p: Patch, fixed: Fields) {
    && Lookup(fixed, "body") == p.body && Lookup(fixed, "expectedHttpCodes") == p.codes
    && Lookup(fixed, "expectedResponseContains") == p.contains && Lookup(fixed, "expectedResponseNotContains") == p.lacks
    && Lookup(fixed, "auth") == p.auth && Lookup(fixed, "signed") == (if p.signed then Some(OtherJson(1)) else None)
    && Lookup(fixed, "traceEndpoint") == (if p.trace != "" then Some(Str(p.trace)) else None)
  }

  lemma FixedArrives(p: Patch)
    ensures HoldsPatch(p, FixedPart(p))
  {
  }

  lemma LaidOver(w: Words, before: Fields, p: Patch, d: Defaults, fixed: Fields, after: Fields, key: string)
    requires after == Overlay(w, before, p, d, fixed) && key !in {"method", "nodeId", "path", "headers"}
    ensures FieldArrives(key, Lookup(fixed, key), before, after)
  {
  }

  lemma FieldsLaidOver(w: Words, before: Fields, p: Patch, d: Defaults, fixed: Fields, after: Fields)
    requires HoldsPatch(p, fixed) && after == Overlay(w, before, p, d, fixed)
    ensures FieldsArrive(p, before, after)
  {
    LaidOver(w, before, p, d, fixed, after, "body");
    LaidOver(w, before, p, d, fixed, after, "expectedHttpCodes");
    LaidOver(w, before, p, d, fixed, after, "expectedResponseContains");
    LaidOver(w, before, p, d, fixed, after, "expectedResponseNotContains");
    LaidOver(w, before, p, d, fixed, after, "auth");
    LaidOver(w, before, p, d, fixed, after, "signed");
    LaidOver(w, before, p, d, fixed, after, "traceEndpoint");
  }

  lemma HeadersLaid(w: Words, before: Fields, p: Patch, d: Defaults, fixed: Fields, after: Fields)
    requires LeavesTargets(fixed) && after == Overlay(w, before, p, d, fixed)
    ensures HeadersArrive(p, before, after)
  {
    OverlaidTargets(w, before, p, d, fixed);
    assert p.headers == map[] ==> Lookup(after, "headers") == Lookup(before, "headers");
    assert p.headers != map[] ==> ObjectAt(after, "headers") == ObjectAt(before, "headers") + p.headers;
  }

  lemma TargetsLaid(w: Words, before: Fields, p: Patch, d: Defaults, fixed: Fields, after: Fields)
    requires LeavesTargets(fixed) && after == Overlay(w, before, p, d, fixed)
    ensures TargetsArrive(w, p, d, before, after)
  {
    OverlaidTargets(w, before, p, d, fixed);
  }

  lemma OverlayArrives(w: Words, before: Fields, p: Patch, d: Defaults, fixed: Fields, after: Fields)
    requires LeavesTargets(fixed) && HoldsPatch(p, fixed) && after == Overlay(w, before, p, d, fixed)
    ensures ExecutionArrives(w, p, d, before, after)
  {
    TargetsLaid(w, before, p, d, fixed, after);
    FieldsLaidOver(w, before, p, d, fixed, after);
    HeadersLaid(w, before, p, d, fixed, after);
  }

  lemma WithExecutionArrives(w: Words, doc: Fields, caseID: string, p: Patch, d: Defaults, execution: Fields)
    requires ExecutionArrives(w, p, d, ObjectAt(doc, "caseExecution"), execution)
    ensures DocumentArrives(w, caseID, p, d, doc, WithExecution(doc, caseID, execution, p.inputs, p.exports))
  {
    WithExecutionTwice(doc, caseID, execution, p.inputs, p.exports);
  }

  function DocOf(json: Stored): Fields {
    if json.Document? then json.doc else map[]
  }

  /** So the merged document holds the patch, field by field, and nothing else has changed. */
  lemma PatchArrives(w: Words, json: Stored, caseID: string, p: Patch, d: Defaults)
    ensures Merged(w, json, caseID, p, d).None? <==> json.Malformed?
    ensures !json.Malformed? ==>
      DocumentArrives(w, caseID, p, d, DocOf(json), Merged(w, json, caseID, p, d).value)
  {
    if !json.Malformed? {
      var doc: Fields := if json.Document? then json.doc else map[];
      FixedPartLeavesTargets(p);
      FixedArrives(p);
      var before := ObjectAt(doc, "caseExecution");
      OverlayArrives(w, before, p, d, FixedPart(p), MergedExecution(w, before, p, d));
      WithExecutionArrives(w, doc, caseID, p, d, MergedExecution(w, before, p, d));
    }
  }

  // ----- Selecting and writing -----

  function CaseIndex(cases: seq<ApiCase>, id: string): (i: nat)
    ensures i <= |cases| && (i < |cases| ==> cases[i].id == id)
    ensures forall j | 0 <= j < i :: cases[j].id != id
  {
    if cases == [] || cases[0].id == id then 0 else 1 + CaseIndex(cases[1..], id)
  }

  function NodeText(w: Words, nodes: seq<Node>, id: string, text: Node -> string, otherwise: string): string {
    if nodes == [] then otherwise
    else if nodes[0].id == id && w.trim(text(nodes[0])) != "" then w.trim(text(nodes[0]))
    else NodeText(w, nodes[1..], id, text, otherwise)
  }

  /** apiCaseMethod, the case's node and apiCasePath. */
  function DefaultsOf(w: Words, nodes: seq<Node>, c: ApiCase): Defaults {
    Defaults(NodeText(w, nodes, c.nodeID, (n: Node) => n.verb, "GET"), c.nodeID, NodeText(w, nodes, c.nodeID, (n: Node) => n.path, "/"))
  }

  /** The k-th node is the first one of the case that names something; there is none if k is their number. */
  predicate FirstNaming(w: Words, nodes: seq<Node>, id: string, text: Node -> string, k: nat) {
    && k <= |nodes| && (k < |nodes| ==> nodes[k].id == id && w.trim(text(nodes[k])) != "")
    && forall j | 0 <= j < k :: !(nodes[j].id == id && w.trim(text(nodes[j])) != "")
  }

  lemma {:induction false} NodeTextExactly(w: Words, nodes: seq<Node>, id: string, text: Node -> string, otherwise: string) returns (k: nat)
    ensures FirstNaming(w, nodes, id, text, k)
    ensures NodeText(w, nodes, id, text, otherwise) == if k < |nodes| then w.trim(text(nodes[k])) else otherwise
  {
    k := 0;
    if nodes != [] && !(nodes[0].id == id && w.trim(text(nodes[0])) != "") {
      var rest := NodeTextExactly(w, nodes[1..], id, text, otherwise);
      k := rest + 1;
      forall j | 0 <= j < k ensures !(nodes[j].id == id && w.trim(text(nodes[j])) != "") {
        assert j > 0 ==> nodes[j] == nodes[1..][j - 1];
      }
    }
  }

  /** The defaults of a case: its node, and the first method and path that a node under that id has, or GET and "/". */
  lemma DefaultsExactly(w: Words, nodes: seq<Node>, c: ApiCase) returns (k: nat, m: nat)
    ensures FirstNaming(w, nodes, c.nodeID, (n: Node) => n.verb, k) && FirstNaming(w, nodes, c.nodeID, (n: Node) => n.path, m)
    ensures var d := DefaultsOf(w, nodes, c);
      && d.nodeID == c.nodeID && d.verb == (if k < |nodes| then w.trim(nodes[k].verb) else "GET")
      && d.path == (if m < |nodes| then w.trim(nodes[m].path) else "/")
  {
    k := NodeTextExactly(w, nodes, c.nodeID, (n: Node) => n.verb, "GET");
    m := NodeTextExactly(w, nodes, c.nodeID, (n: Node) => n.path, "/");
  }

  lemma {:induction false} DefaultMethodIsNotBlank(w: Words, nodes: seq<Node>, id: string, text: Node -> string)
    requires WellBehaved(w)
    ensures w.trim(NodeText(w, nodes, id, text, "GET")) != ""
  {
    if nodes != [] {
      DefaultMethodIsNotBlank(w, nodes[1..], id, text);
    }
  }

  /** validateCaseConfigWorkflowStepBinding: the first binding of the step must be to this case. */
  predicate BoundTo(w: Words, bindings: seq<Binding>, q: Request) {
    if bindings == [] then false
    else if w.trim(bindings[0].workflowID) == w.trim(q.workflowID) && w.trim(bindings[0].stepID) == w.trim(q.stepID) then
      w.trim(bindings[0].caseID) == q.caseID
    else BoundTo(w, bindings[1..], q)
  }

  datatype Outcome = Rejected | Written(catalog: Catalog, configID: string, created: bool)

  function Existing(configs: seq<Config>, id: string): Option<Config> {
    var i := IndexOfID(configs, id);
    if i < |configs| then Some(configs[i]) else None
  }

  type Merger = (Stored, Request, Defaults) -> Option<Fields>

  /** The merge as the code does it. */
  function PatchMerger(w: Words): Merger {
    (json: Stored, q: Request, d: Defaults) => Merged(w, json, q.caseID, q.patch, d)
  }

  predicate Merges(m: Merger, json: Stored, q: Request, d: Defaults, doc: Fields) {
    m(json, q, d) == Some(doc)
  }

  /** All that writing and selecting rely on: a merged document merges to itself and names its case and a target. */
  ghost predicate SoundMerger(w: Words, m: Merger) {
    forall json, q, d, doc {:trigger Merges(m, json, q, d, doc)} | Merges(m, json, q, d, doc) && w.trim(d.verb) != "" ::
      Merges(m, Document(doc), q, d, doc) && DocContains(w, doc, q.caseID)
  }

  lemma PatchMergerIsSound(w: Words)
    requires WellBehaved(w)
    ensures SoundMerger(w, PatchMerger(w))
  {
    var m := PatchMerger(w);
    forall json, q, d, doc {:trigger Merges(m, json, q, d, doc)} | Merges(m, json, q, d, doc) && w.trim(d.verb) != ""
      ensures Merges(m, Document(doc), q, d, doc) && DocContains(w, doc, q.caseID)
    {
      MergeTwice(w, json, q.caseID, q.patch, d);
      MergedIsSelectable(w, json, q.patch, d, q.caseID);
    }
  }

  /** The configuration that is written for the case, or None if its document cannot be decoded. */
  function NextConfig(w: Words, m: Merger, catalog: Catalog, q: Request, c: ApiCase): Option<Config> {
    var id := TargetID(w, catalog.configs, q);
    var config := Prepare(w, Existing(catalog.configs, id), id, q);
    var doc := m(config.json, q, DefaultsOf(w, catalog.nodes, c));
    if doc.None? then None else Some(config.(json := Document(doc.value)))
  }

  function NextCase(w: Words, q: Request, c: ApiCase): Option<ApiCase> {
    var overridden := if q.overrides.Some? then c.(overrides := c.overrides + q.overrides.value) else c;
    var status := w.normalize(overridden.status);
    if status.None? then None else Some(overridden.(status := status.value))
  }

  /** upsertCaseExecutionConfig, between loading the snapshot and committing it. */
  function Upsert(w: Words, m: Merger, catalog: Catalog, q: Request): Outcome {
    var i := CaseIndex(catalog.cases, q.caseID);
    if i == |catalog.cases| || (StepScope(w, q) && !BoundTo(w, catalog.bindings, q)) then Rejected
    else
      var config, apiCase := NextConfig(w, m, catalog, q, catalog.cases[i]), NextCase(w, q, catalog.cases[i]);
      if config.None? || apiCase.None? then Rejected
      else
        var next := catalog.(configs := Upserted(catalog.configs, config.value), cases := catalog.cases[i := apiCase.value]);
        if !w.valid(next, apiCase.value) then Rejected
        else Written(next, config.value.id, Existing(catalog.configs, config.value.id).None?)
  }

  ghost predicate UniqueIDs(configs: seq<Config>) {
    && (forall i | 0 <= i < |configs| :: configs[i].id != "")
    && (forall i, j | 0 <= i < j < |configs| :: configs[i].id != configs[j].id)
  }

  lemma {:induction false} IndexOfUnique(configs: seq<Config>, i: nat)
    requires UniqueIDs(configs) && i < |configs|
    ensures IndexOfID(configs, configs[i].id) == i
  {
    var k := IndexOfID(configs, configs[i].id);
    assert k <= i;
  }

  lemma {:induction false} FirstIDIsFirst(configs: seq<Config>, accepts: Config -> bool, k: nat)
    requires k < |configs| && accepts(configs[k]) && forall j | 0 <= j < k :: !accepts(configs[j])
    ensures FirstID(configs, accepts) == configs[k].id
  {
    if k > 0 {
      FirstIDIsFirst(configs[1..], accepts, k - 1);
    }
  }

  lemma {:induction false} FirstIDFound(configs: seq<Config>, accepts: Config -> bool) returns (k: nat)
    requires forall i | 0 <= i < |configs| :: configs[i].id != ""
    ensures k <= |configs| && forall j | 0 <= j < k :: !accepts(configs[j])
    ensures k < |configs| ==> accepts(configs[k]) && FirstID(configs, accepts) == configs[k].id
    ensures FirstID(configs, accepts) == "" <==> k == |configs|
  {
    if configs == [] {
      k := 0;
    } else if accepts(configs[0]) {
      k := 0;
    } else {
      k := FirstIDFound(configs[1..], accepts);
      k := k + 1;
    }
  }

  /**
   * Replacing the selected configuration, or adding one where none was selected, makes the written one selected
   * exactly if it matches itself.
   */
  lemma FirstIDAfterUpsert(configs: seq<Config>, accepts: Config -> bool, next: Config)
    requires UniqueIDs(configs) && next.id != ""
    requires FirstID(configs, accepts) == "" || FirstID(configs, accepts) == next.id
    ensures FirstID(Upserted(configs, next), accepts) == next.id <==> accepts(next)
    ensures UniqueIDs(Upserted(configs, next))
  {
    var k := FirstIDFound(configs, accepts);
    var i := IndexOfID(configs, next.id);
    var after := Upserted(configs, next);
    assert after[i] == next;
    if k < |configs| {
      IndexOfUnique(configs, k);
      assert i == k;
    }
    var m := FirstIDFound(after, accepts);
    IndexOfUnique(after, i);
    if accepts(next) {
      FirstIDIsFirst(after, accepts, i);
    } else if m < |after| {
      IndexOfUnique(after, m);
    }
  }

  /** selectedCaseExecutionTemplateConfigID and its step-scoped part are two runs of this loop. */
  method FirstMatching(configs: seq<Config>, accepts: Config -> bool) returns (id: string)
    ensures id == FirstID(configs, accepts)
  {
    for i := 0 to |configs|
      invariant FirstID(configs, accepts) == FirstID(configs[i..], accepts)
    {
      assert configs[i..][1..] == configs[i + 1..];
      if accepts(configs[i]) {
        return configs[i].id;
      }
    }
    return "";
  }

  /** upsertCatalogTemplateConfig. */
  method UpsertTemplateConfig(items: seq<Config>, next: Config) returns (result: seq<Config>)
    ensures result == Upserted(items, next)
  {
    for i := 0 to |items|
      invariant forall j | 0 <= j < i :: items[j].id != next.id
    {
      if items[i].id == next.id {
        assert IndexOfID(items, next.id) == i;
        return items[i := next];
      }
    }
    return items + [next];
  }

  method SelectedConfigID(w: Words, configs: seq<Config>, q: Request) returns (id: string)
    ensures id == SelectedID(w, configs, q)
  {
    if StepScope(w, q) {
      id := FirstMatching(configs, StepMatcher(w, q));
      if id != "" {
        return;
      }
    }
    id := FirstMatching(configs, CaseMatcher(w, q));
  }

  method PrepareTarget(w: Words, configs: seq<Config>, q: Request) returns (config: Config, found: bool)
    ensures config == Prepare(w, Existing(configs, TargetID(w, configs, q)), TargetID(w, configs, q), q)
    ensures found == Existing(configs, TargetID(w, configs, q)).Some?
  {
    var id := w.trim(q.configID);
    if id == "" {
      if StepScope(w, q) {
        id := FirstMatching(configs, StepMatcher(w, q));
      } else {
        id := SelectedConfigID(w, configs, q);
      }
    }
    if id == "" {
      id := w.fallback(q.caseID, q.workflowID, q.stepID);
    }
    var existing := Existing(configs, id);
    found := existing.Some?;
    config := (if existing.Some? then existing.value else Config("", "", "", "", "", Blank, 0)).(id := id);
    if StepScope(w, q) {
      config := config.(scopeType := "step", workflowID := w.trim(q.workflowID), scopeID := w.trim(q.stepID));
    } else if !found || !CaseScopeType(w, config.scopeType) {
      config := config.(scopeType := "case", workflowID := "", scopeID := q.caseID);
    }
    if w.trim(q.status) != "" {
      config := config.(status := w.trim(q.status));
    } else if !found || w.trim(config.status) == "" {
      config := config.(status := "active");
    }
  }

  /** The configuration to write, with its merged document. */
  method PrepareNext(w: Words, catalog: Catalog, q: Request, c: ApiCase) returns (next: Option<Config>, created: bool)
    ensures next == NextConfig(w, PatchMerger(w), catalog, q, c)
    ensures created == Existing(catalog.configs, TargetID(w, catalog.configs, q)).None?
  {
    var config, known := PrepareTarget(w, catalog.configs, q);
    var doc := Merge(w, config.json, q.caseID, q.patch, DefaultsOf(w, catalog.nodes, c));
    return if doc.None? then None else Some(config.(json := Document(doc.value))), !known;
  }

  /** The case with its default overrides merged and its status normalised. */
  method PrepareCase(w: Words, q: Request, c: ApiCase) returns (next: Option<ApiCase>)
    ensures next == NextCase(w, q, c)
  {
    var edited := c;
    if q.overrides.Some? {
      edited := edited.(overrides := edited.overrides + q.overrides.value);
    }
    var status := w.normalize(edited.status);
    return if status.None? then None else Some(edited.(status := status.value));
  }

  /** upsertCaseExecutionConfig up to the commit; also tells whether the runner selects what was written. */
  method UpsertConfig(w: Words, catalog: Catalog, q: Request) returns (r: Outcome, selected: bool)
    ensures r == Upsert(w, PatchMerger(w), catalog, q)
    ensures r.Written? ==> selected == (SelectedID(w, r.catalog.configs, q) == r.configID)
  {
    var i := CaseIndex(catalog.cases, q.caseID);
    if i == |catalog.cases| || (StepScope(w, q) && !BoundTo(w, catalog.bindings, q)) {
      return Rejected, false;
    }
    var config, created := PrepareNext(w, catalog, q, catalog.cases[i]);
    var apiCase := PrepareCase(w, q, catalog.cases[i]);
    if config.None? || apiCase.None? {
      return Rejected, false;
    }
    var configs := UpsertTemplateConfig(catalog.configs, config.value);
    var next := catalog.(configs := configs, cases := catalog.cases[i := apiCase.value]);
    if !w.valid(next, apiCase.value) {
      return Rejected, false;
    }
    var id := SelectedConfigID(w, configs, q);
    return Written(next, config.value.id, created), id == config.value.id;
  }

  /**
   * Whether the runner will select what is written, as it can be told before: the resulting status is active, and a
   * configuration already found under the id made from the case's name is not scoped to another case.
   */
  predicate WillBeSelected(w: Words, configs: seq<Config>, q: Request) {
    var config := Prepare(w, Existing(configs, TargetID(w, configs, q)), TargetID(w, configs, q), q);
    if StepScope(w, q) then w.active(config.status)
    else (config.status == "" || config.status == "active") && (config.scopeID == "" || config.scopeID == q.caseID)
  }

  lemma WrittenMatches(w: Words, m: Merger, catalog: Catalog, q: Request, c: ApiCase)
    requires WellBehaved(w) && SoundMerger(w, m) && NextConfig(w, m, catalog, q, c).Some?
    ensures var next := NextConfig(w, m, catalog, q, c).value;
      && (StepScope(w, q) ==> !CaseMatcher(w, q)(next) && (StepMatcher(w, q)(next) <==> WillBeSelected(w, catalog.configs, q)))
      && (!StepScope(w, q) ==> (CaseMatcher(w, q)(next) <==> WillBeSelected(w, catalog.configs, q)))
  {
    var id := TargetID(w, catalog.configs, q);
    var config := Prepare(w, Existing(catalog.configs, id), id, q);
    var next := NextConfig(w, m, catalog, q, c).value;
    DefaultMethodIsNotBlank(w, catalog.nodes, c.nodeID, (n: Node) => n.verb);
    assert Merges(m, config.json, q, DefaultsOf(w, catalog.nodes, c), next.json.doc);
  }

  lemma NextHasTheTargetID(w: Words, m: Merger, catalog: Catalog, q: Request, c: ApiCase)
    requires WellBehaved(w) && NextConfig(w, m, catalog, q, c).Some?
    ensures NextConfig(w, m, catalog, q, c).value.id == TargetID(w, catalog.configs, q) != ""
  {
  }

  lemma SelectionAfterUpsert(w: Words, configs: seq<Config>, q: Request, next: Config)
    requires UniqueIDs(configs) && next.id != ""
    requires FirstID(configs, if StepScope(w, q) then StepMatcher(w, q) else CaseMatcher(w, q)) in {"", next.id}
    requires StepScope(w, q) ==> !CaseMatcher(w, q)(next)
    ensures var matcher := if StepScope(w, q) then StepMatcher(w, q) else CaseMatcher(w, q);
      && (SelectedID(w, Upserted(configs, next), q) == next.id <==> matcher(next))
      && (matcher(next) ==> FirstID(Upserted(configs, next), matcher) == next.id)
  {
    var after := Upserted(configs, next);
    if StepScope(w, q) {
      FirstIDAfterUpsert(configs, StepMatcher(w, q), next);
      var k := FirstIDFound(after, CaseMatcher(w, q));
      IndexOfUnique(after, IndexOfID(configs, next.id));
      if k < |after| {
        IndexOfUnique(after, k);
      }
    } else {
      FirstIDAfterUpsert(configs, CaseMatcher(w, q), next);
    }
  }

  /** What such a configuration is for: the case, and the requested step or the case as a whole, and it is in use. */
  ghost predicate InUse(w: Words, q: Request, c: Config) {
    && c.json.Document? && Lookup(c.json.doc, "caseId") == Some(Str(q.caseID))
    && if w.trim(c.scopeType) == "step" then
         && w.trim(c.workflowID) == w.trim(q.workflowID) != "" && w.trim(c.scopeID) == w.trim(q.stepID) != "" && w.active(c.status)
       else w.trim(c.scopeType) in {"", "case", "api-case"} && c.scopeID in {"", q.caseID} && c.status in {"", "active"}
  }

  /** What the runner selects is one of the configurations that are in use for the request; it selects nothing only if there is none. */
  lemma SelectedIsInUse(w: Words, configs: seq<Config>, q: Request)
    requires forall i | 0 <= i < |configs| :: configs[i].id != ""
    ensures SelectedID(w, configs, q) != "" ==> exists k | 0 <= k < |configs| :: configs[k].id == SelectedID(w, configs, q) && InUse(w, q, configs[k])
    ensures SelectedID(w, configs, q) == "" ==> forall k | 0 <= k < |configs| && InUse(w, q, configs[k]) :: !Contains(w, configs[k], q.caseID)
  {
    var s := FirstIDFound(configs, StepMatcher(w, q));
    var k := FirstIDFound(configs, CaseMatcher(w, q));
    if StepScope(w, q) && s < |configs| {
      assert MatchesStep(w, q, configs[s]) && InUse(w, q, configs[s]);
    } else if k < |configs| {
      assert MatchesCase(w, q, configs[k]) && InUse(w, q, configs[k]);
    } else {
      forall i | 0 <= i < |configs| && InUse(w, q, configs[i]) ensures !Contains(w, configs[i], q.caseID) {
        assert !CaseMatcher(w, q)(configs[i]);
        if StepScope(w, q) {
          assert !StepMatcher(w, q)(configs[i]);
        }
      }
    }
  }

  /** Where nothing is named, what is edited is what was selected, if anything was. */
  lemma TargetWasSelected(w: Words, configs: seq<Config>, q: Request)
    requires w.trim(q.configID) == ""
    ensures FirstID(configs, if StepScope(w, q) then StepMatcher(w, q) else CaseMatcher(w, q)) in {"", TargetID(w, configs, q)}
  {
  }

  /**
   * Without an explicit id, the runner selects exactly what was written if and only if the condition above held
   * before. All other configurations stay as they were, and one is added exactly if none had the id.
   */
  lemma UpsertClosesSelection(w: Words, m: Merger, catalog: Catalog, q: Request)
    requires WellBehaved(w) && SoundMerger(w, m) && UniqueIDs(catalog.configs) && w.trim(q.configID) == ""
    requires Upsert(w, m, catalog, q).Written?
    ensures var r := Upsert(w, m, catalog, q);
      && (SelectedID(w, r.catalog.configs, q) == r.configID <==> WillBeSelected(w, catalog.configs, q))
      && (forall j | 0 <= j < |catalog.configs| && catalog.configs[j].id != r.configID :: r.catalog.configs[j] == catalog.configs[j])
      && |r.catalog.configs| == |catalog.configs| + if r.created then 1 else 0
  {
    var c := catalog.cases[CaseIndex(catalog.cases, q.caseID)];
    var next := NextConfig(w, m, catalog, q, c).value;
    NextHasTheTargetID(w, m, catalog, q, c);
    TargetWasSelected(w, catalog.configs, q);
    WrittenMatches(w, m, catalog, q, c);
    SelectionAfterUpsert(w, catalog.configs, q, next);
  }

  lemma PrepareTwice(w: Words, existing: Option<Config>, id: string, q: Request, json: Stored)
    requires WellBehaved(w)
    ensures var once := Prepare(w, existing, id, q).(json := json); Prepare(w, Some(once), id, q) == once
  {
  }

  lemma {:induction false} CaseIndexStays(cases: seq<ApiCase>, id: string, i: nat, next: ApiCase)
    requires i < |cases| && i == CaseIndex(cases, id) && next.id == cases[i].id
    ensures CaseIndex(cases[i := next], id) == i
  {
    if i > 0 {
      assert cases[i := next][1..] == cases[1..][i - 1 := next];
      CaseIndexStays(cases[1..], id, i - 1, next);
    }
  }

  lemma WrittenIsFound(configs: seq<Config>, next: Config)
    ensures var after := Upserted(configs, next);
      IndexOfID(after, next.id) == IndexOfID(configs, next.id) && Existing(after, next.id) == Some(next) && Upserted(after, next) == after
  {
    var after := Upserted(configs, next);
    var i := IndexOfID(configs, next.id);
    assert after[i] == next && forall j | 0 <= j < i :: after[j].id != next.id;
    assert IndexOfID(after, next.id) == i;
  }

  lemma SameTargetAgain(w: Words, m: Merger, catalog: Catalog, q: Request, c: ApiCase)
    requires WellBehaved(w) && SoundMerger(w, m) && UniqueIDs(catalog.configs) && NextConfig(w, m, catalog, q, c).Some?
    requires w.trim(q.configID) != "" || WillBeSelected(w, catalog.configs, q)
    ensures var next := NextConfig(w, m, catalog, q, c).value; TargetID(w, Upserted(catalog.configs, next), q) == next.id
  {
    var next := NextConfig(w, m, catalog, q, c).value;
    NextHasTheTargetID(w, m, catalog, q, c);
    if w.trim(q.configID) == "" {
      TargetWasSelected(w, catalog.configs, q);
      WrittenMatches(w, m, catalog, q, c);
      SelectionAfterUpsert(w, catalog.configs, q, next);
    }
  }

  /** Writing for the same case again prepares the very same configuration. */
  lemma SameConfigAgain(w: Words, m: Merger, catalog: Catalog, q: Request, c: ApiCase, after: Catalog, c': ApiCase)
    requires WellBehaved(w) && SoundMerger(w, m) && UniqueIDs(catalog.configs) && NextConfig(w, m, catalog, q, c).Some?
    requires w.trim(q.configID) != "" || WillBeSelected(w, catalog.configs, q)
    requires after.nodes == catalog.nodes && c'.nodeID == c.nodeID
    requires after.configs == Upserted(catalog.configs, NextConfig(w, m, catalog, q, c).value)
    ensures NextConfig(w, m, after, q, c') == NextConfig(w, m, catalog, q, c)
  {
    var next := NextConfig(w, m, catalog, q, c).value;
    var id := TargetID(w, catalog.configs, q);
    var config := Prepare(w, Existing(catalog.configs, id), id, q);
    NextHasTheTargetID(w, m, catalog, q, c);
    SameTargetAgain(w, m, catalog, q, c);
    WrittenIsFound(catalog.configs, next);
    PrepareTwice(w, Existing(catalog.configs, id), id, q, next.json);
    DefaultMethodIsNotBlank(w, catalog.nodes, c.nodeID, (n: Node) => n.verb);
    assert Merges(m, config.json, q, DefaultsOf(w, catalog.nodes, c), next.json.doc);
    assert Merges(m, Document(next.json.doc), q, DefaultsOf(w, catalog.nodes, c'), next.json.doc);
  }

  lemma SameCaseAgain(w: Words, q: Request, c: ApiCase)
    requires WellBehaved(w) && NextCase(w, q, c).Some?
    ensures NextCase(w, q, NextCase(w, q, c).value) == NextCase(w, q, c)
  {
    if q.overrides.Some? {
      assert c.overrides + q.overrides.value + q.overrides.value == c.overrides + q.overrides.value;
    }
  }

  /** A second identical upsert then finds what the first wrote, creates nothing and changes nothing. */
  lemma SecondUpsertChangesNothing(w: Words, m: Merger, catalog: Catalog, q: Request)
    requires WellBehaved(w) && SoundMerger(w, m) && UniqueIDs(catalog.configs)
    requires w.trim(q.configID) != "" || WillBeSelected(w, catalog.configs, q)
    requires Upsert(w, m, catalog, q).Written?
    ensures var r := Upsert(w, m, catalog, q); Upsert(w, m, r.catalog, q) == Written(r.catalog, r.configID, false)
  {
    var i := CaseIndex(catalog.cases, q.caseID);
    var c, r := catalog.cases[i], Upsert(w, m, catalog, q);
    var next, nextCase := NextConfig(w, m, catalog, q, c).value, NextCase(w, q, c).value;
    CaseIndexStays(catalog.cases, q.caseID, i, nextCase);
    SameConfigAgain(w, m, catalog, q, c, r.catalog, nextCase);
    SameCaseAgain(w, q, c);
    WrittenIsFound(catalog.configs, next);
    assert r.catalog.cases[i := nextCase] == r.catalog.cases;
  }

  /**
   * So with Go's TrimSpace and the merge as the code does it: the runner selects what was written if and only if the
   * condition held before, and then writing it again changes nothing.
   */
  lemma EditIsSelectedAndStays(w: Words, catalog: Catalog, q: Request)
    requires GoWords(w) && UniqueIDs(catalog.configs) && w.trim(q.configID) == ""
    requires Upsert(w, PatchMerger(w), catalog, q).Written?
    ensures var r := Upsert(w, PatchMerger(w), catalog, q);
      && (SelectedID(w, r.catalog.configs, q) == r.configID <==> WillBeSelected(w, catalog.configs, q))
      && (WillBeSelected(w, catalog.configs, q) ==> Upsert(w, PatchMerger(w), r.catalog, q) == Written(r.catalog, r.configID, false))
  {
    TrimSpaceSuits(w);
    PatchMergerIsSound(w);
    UpsertClosesSelection(w, PatchMerger(w), catalog, q);
    if WillBeSelected(w, catalog.configs, q) {
      SecondUpsertChangesNothing(w, PatchMerger(w), catalog, q);
    }
  }

  // ----- What is written, and when nothing is -----

  /** The first binding of the requested step, if there is one, is to the case. */
  ghost predicate FirstBindingIsTo(w: Words, bindings: seq<Binding>, q: Request) {
    exists i | 0 <= i < |bindings| ::
      && IsForStep(w, bindings[i], q) && w.trim(bindings[i].caseID) == q.caseID
      && forall j | 0 <= j < i :: !IsForStep(w, bindings[j], q)
  }

  predicate IsForStep(w: Words, b: Binding, q: Request) {
    w.trim(b.workflowID) == w.trim(q.workflowID) && w.trim(b.stepID) == w.trim(q.stepID)
  }

  lemma {:induction false} BoundToExactly(w: Words, bindings: seq<Binding>, q: Request)
    ensures BoundTo(w, bindings, q) <==> FirstBindingIsTo(w, bindings, q)
  {
    if bindings != [] {
      var rest := bindings[1..];
      BoundToExactly(w, rest, q);
      if IsForStep(w, bindings[0], q) {
        assert FirstBindingIsTo(w, bindings, q) <==> w.trim(bindings[0].caseID) == q.caseID;
      } else {
        if FirstBindingIsTo(w, rest, q) {
          var i :| 0 <= i < |rest| && IsForStep(w, rest[i], q) && w.trim(rest[i].caseID) == q.caseID
                   && forall j | 0 <= j < i :: !IsForStep(w, rest[j], q);
          forall j | 0 <= j < i + 1 ensures !IsForStep(w, bindings[j], q) {
            assert j > 0 ==> bindings[j] == rest[j - 1];
          }
          assert IsForStep(w, bindings[i + 1], q);
        }
        if FirstBindingIsTo(w, bindings, q) {
          var i :| 0 <= i < |bindings| && IsForStep(w, bindings[i], q) && w.trim(bindings[i].caseID) == q.caseID
                   && forall j | 0 <= j < i :: !IsForStep(w, bindings[j], q);
          forall j | 0 <= j < i - 1 ensures !IsForStep(w, rest[j], q) {
            assert rest[j] == bindings[j + 1];
          }
          assert IsForStep(w, rest[i - 1], q);
        }
      }
    }
  }

  /** The place and status of what is written, from the configuration found under the id. */
  ghost predicate PlaceArrives(w: Words, q: Request, found: Option<Config>, config: Config) {
    && (StepScope(w, q) ==> config.scopeType == "step" && config.workflowID == w.trim(q.workflowID) && config.scopeID == w.trim(q.stepID))
    && (!StepScope(w, q) && found.Some? && w.trim(found.value.scopeType) in {"", "case", "api-case"} ==>
          config.scopeType == found.value.scopeType && config.workflowID == found.value.workflowID && config.scopeID == found.value.scopeID)
    && (!StepScope(w, q) && (found.None? || w.trim(found.value.scopeType) !in {"", "case", "api-case"}) ==>
          config.scopeType == "case" && config.workflowID == "" && config.scopeID == q.caseID)
    && config.status == (if w.trim(q.status) != "" then w.trim(q.status)
                         else if found.Some? && w.trim(found.value.status) != "" then found.value.status else "active")
    && config.other == (if found.Some? then found.value.other else 0)
  }

  function StoredJson(found: Option<Config>): Stored {
    if found.Some? then found.value.json else Blank
  }

  /** The configuration that is written: its place, its status, and the patched document. */
  ghost predicate ConfigArrives(w: Words, q: Request, d: Defaults, found: Option<Config>, config: Config) {
    && PlaceArrives(w, q, found, config) && config.json.Document? && !StoredJson(found).Malformed?
    && DocumentArrives(w, q.caseID, q.patch, d, DocOf(StoredJson(found)), config.json.doc)
  }

  /** The written configuration stands where the one with its id stood, or at the end, and no other has changed. */
  ghost predicate ConfigsArrive(w: Words, q: Request, d: Defaults, before: seq<Config>, r: Outcome)
    requires r.Written?
  {
    var k, after, found := IndexOfID(before, r.configID), r.catalog.configs, Existing(before, r.configID);
    && (r.created <==> found.None?) && |after| == |before| + (if r.created then 1 else 0)
    && k < |after| && after[k].id == r.configID && ConfigArrives(w, q, d, found, after[k])
    && forall j | 0 <= j < |before| && j != k :: after[j] == before[j]
  }

  /** The case that is written: the given overrides over the stored ones, the status as it is known, nothing else. */
  ghost predicate CaseArrives(w: Words, q: Request, before: ApiCase, after: ApiCase) {
    && after.id == before.id && after.nodeID == before.nodeID && after.other == before.other
    && w.normalize(before.status) == Some(after.status)
    && (forall key :: Lookup(after.overrides, key) ==
          if q.overrides.Some? && key in q.overrides.value then Some(q.overrides.value[key]) else Lookup(before.overrides, key))
  }

  lemma PreparedArrives(w: Words, found: Option<Config>, id: string, q: Request)
    ensures var config := Prepare(w, found, id, q);
      && config.id == id && PlaceArrives(w, q, found, config) && config.json == StoredJson(found)
  {
  }

  lemma NextConfigArrives(w: Words, catalog: Catalog, q: Request, c: ApiCase)
    ensures var next, found := NextConfig(w, PatchMerger(w), catalog, q, c), Existing(catalog.configs, TargetID(w, catalog.configs, q));
      && (next.None? <==> StoredJson(found).Malformed?)
      && (next.Some? ==> next.value.id == TargetID(w, catalog.configs, q))
      && (next.Some? ==> ConfigArrives(w, q, DefaultsOf(w, catalog.nodes, c), found, next.value))
  {
    var id := TargetID(w, catalog.configs, q);
    var found := Existing(catalog.configs, id);
    PreparedArrives(w, found, id, q);
    PatchArrives(w, StoredJson(found), q.caseID, q.patch, DefaultsOf(w, catalog.nodes, c));
  }

  lemma NextCaseArrives(w: Words, q: Request, c: ApiCase)
    ensures NextCase(w, q, c).None? <==> w.normalize(c.status).None?
    ensures NextCase(w, q, c).Some? ==> CaseArrives(w, q, c, NextCase(w, q, c).value)
  {
  }

  /**
   * What an upsert that is not refused writes: under its id the patched configuration, and no other one changes; an
   * explicit id is the one that is written.
   */
  lemma UpsertWritesThePatch(w: Words, catalog: Catalog, q: Request)
    requires Upsert(w, PatchMerger(w), catalog, q).Written?
    ensures var r, i := Upsert(w, PatchMerger(w), catalog, q), CaseIndex(catalog.cases, q.caseID);
      && i < |catalog.cases| && (w.trim(q.configID) != "" ==> r.configID == w.trim(q.configID))
      && ConfigsArrive(w, q, DefaultsOf(w, catalog.nodes, catalog.cases[i]), catalog.configs, r)
  {
    var c := catalog.cases[CaseIndex(catalog.cases, q.caseID)];
    NextConfigArrives(w, catalog, q, c);
    UpsertedArrive(w, q, DefaultsOf(w, catalog.nodes, c), catalog.configs, NextConfig(w, PatchMerger(w), catalog, q, c).value,
                   Upsert(w, PatchMerger(w), catalog, q));
  }

  /** And the edited case in its place; no other case, node or binding changes. */
  lemma UpsertEditsTheCase(w: Words, catalog: Catalog, q: Request)
    requires Upsert(w, PatchMerger(w), catalog, q).Written?
    ensures var after, i := Upsert(w, PatchMerger(w), catalog, q).catalog, CaseIndex(catalog.cases, q.caseID);
      && i < |catalog.cases| && |after.cases| == |catalog.cases| && CaseArrives(w, q, catalog.cases[i], after.cases[i])
      && (forall j | 0 <= j < |catalog.cases| && j != i :: after.cases[j] == catalog.cases[j])
      && after.nodes == catalog.nodes && after.bindings == catalog.bindings
  {
    NextCaseArrives(w, q, catalog.cases[CaseIndex(catalog.cases, q.caseID)]);
  }

  lemma UpsertedArrive(w: Words, q: Request, d: Defaults, before: seq<Config>, next: Config, r: Outcome)
    requires ConfigArrives(w, q, d, Existing(before, next.id), next)
    requires r.Written? && r.configID == next.id && r.catalog.configs == Upserted(before, next) && (r.created <==> Existing(before, next.id).None?)
    ensures ConfigsArrive(w, q, d, before, r)
  {
  }

  /**
   * It is refused exactly if the case is missing, the step is not bound to it, the configuration under the id cannot be
   * decoded, the case's status is unknown, or the edited case is not valid.
   */
  lemma RefusedExactly(w: Words, catalog: Catalog, q: Request)
    ensures var i := CaseIndex(catalog.cases, q.caseID);
      var found := Existing(catalog.configs, TargetID(w, catalog.configs, q));
      Upsert(w, PatchMerger(w), catalog, q).Rejected? <==>
        || (forall c | c in catalog.cases :: c.id != q.caseID)
        || (w.trim(q.workflowID) != "" && w.trim(q.stepID) != "" && !FirstBindingIsTo(w, catalog.bindings, q))
        || StoredJson(found).Malformed?
        || w.normalize(catalog.cases[i].status).None?
        || !w.valid(EditedCatalog(w, catalog, q, catalog.cases[i]), NextCase(w, q, catalog.cases[i]).value)
  {
    var i := CaseIndex(catalog.cases, q.caseID);
    BoundToExactly(w, catalog.bindings, q);
    if i < |catalog.cases| {
      assert catalog.cases[i] in catalog.cases;
      NextConfigArrives(w, catalog, q, catalog.cases[i]);
      NextCaseArrives(w, q, catalog.cases[i]);
    }
  }

  /** The catalog that is validated. */
  function EditedCatalog(w: Words, catalog: Catalog, q: Request, c: ApiCase): Catalog
    requires NextConfig(w, PatchMerger(w), catalog, q, c).Some? && NextCase(w, q, c).Some? && CaseIndex(catalog.cases, q.caseID) < |catalog.cases|
  {
    catalog.(configs := Upserted(catalog.configs, NextConfig(w, PatchMerger(w), catalog, q, c).value),
             cases := catalog.cases[CaseIndex(catalog.cases, q.caseID) := NextCase(w, q, c).value])
  }

  // ----- Where what was written is not selected -----

  /** The configuration is active, its document is for the case, and it names a request target. */
  predicate Runnable(w: Words, c: Config, caseID: string) {
    && w.active(c.status) && c.json.Document? && Lookup(c.json.doc, "caseId") == Some(Str(caseID))
    && HasTarget(w, ObjectAt(c.json.doc, "caseExecution"))
  }

  predicate HasTarget(w: Words, execution: Fields) {
    exists key | key in execution && key in {"method", "path", "nodeId"} :: execution[key].Str? && w.trim(execution[key].text) != ""
  }

  /**
   * ValidateCase, for a case without request template, case file and external source: it and its node have names, the
   * node is there, and if the case is active, so is some configuration that can run it.
   */
  predicate Validates(w: Words, catalog: Catalog, c: ApiCase) {
    && w.trim(c.id) != "" && w.trim(c.nodeID) != "" && (exists n | n in catalog.nodes :: w.trim(n.id) == w.trim(c.nodeID))
    && w.normalize(c.status).Some?
    && (w.normalize(c.status) == Some("active") ==> exists config | config in catalog.configs :: Runnable(w, config, c.id))
  }

  /** The validation of the edited case accepts at least these, as long as nothing else about the case changes. */
  ghost predicate ValidatesPlainly(w: Words, other: int) {
    forall catalog, edited: ApiCase | edited.other == other && Validates(w, catalog, edited) :: w.valid(catalog, edited)
  }

  /** A case at a node, and no bindings. */
  function OneCase(configs: seq<Config>, c: ApiCase, node: Node): Catalog {
    Catalog(configs, [c], [node], [])
  }

  /** A request that only names the case. */
  function ForCase(caseID: string, status: string, patch: Patch): Request {
    Request(caseID, "", "", "", status, patch, None)
  }

  /** The case and its node have names, and the case a status that is known. */
  predicate Maintained(w: Words, c: ApiCase, node: Node) {
    w.trim(c.id) != "" && w.trim(c.nodeID) != "" && node.id == c.nodeID && w.normalize(c.status).Some?
  }

  /** A merged document names its case and, without white space alone, a method. */
  lemma MergedHasTarget(w: Words, json: Stored, p: Patch, d: Defaults, caseID: string)
    requires WellBehaved(w) && w.trim(d.verb) != "" && Merged(w, json, caseID, p, d).Some?
    ensures var doc := Merged(w, json, caseID, p, d).value;
      Lookup(doc, "caseId") == Some(Str(caseID)) && HasTarget(w, ObjectAt(doc, "caseExecution"))
  {
    var doc: Fields := if json.Document? then json.doc else map[];
    var before := ObjectAt(doc, "caseExecution");
    FixedPartLeavesTargets(p);
    OverlaidTargets(w, before, p, d, FixedPart(p));
    var execution := MergedExecution(w, before, p, d);
    WithExecutionTwice(doc, caseID, execution, p.inputs, p.exports);
    assert execution["method"] == TargetPart(w, before, p, d)["method"];
  }

  lemma NextIsRunnable(w: Words, catalog: Catalog, q: Request, c: ApiCase)
    requires WellBehaved(w) && NextConfig(w, PatchMerger(w), catalog, q, c).Some?
    requires w.active(NextConfig(w, PatchMerger(w), catalog, q, c).value.status)
    ensures Runnable(w, NextConfig(w, PatchMerger(w), catalog, q, c).value, q.caseID)
  {
    var id := TargetID(w, catalog.configs, q);
    var config := Prepare(w, Existing(catalog.configs, id), id, q);
    DefaultMethodIsNotBlank(w, catalog.nodes, c.nodeID, (n: Node) => n.verb);
    MergedHasTarget(w, config.json, q.patch, DefaultsOf(w, catalog.nodes, c), q.caseID);
  }

  /** The upsert of such a case is not refused, if the configuration is active or the case is not. */
  lemma WrittenForOneCase(w: Words, configs: seq<Config>, c: ApiCase, node: Node, q: Request)
    requires WellBehaved(w) && q == ForCase(c.id, q.status, q.patch) && Maintained(w, c, node) && ValidatesPlainly(w, c.other)
    requires NextConfig(w, PatchMerger(w), OneCase(configs, c, node), q, c).Some?
    requires w.normalize(c.status) == Some("active") ==> w.active(NextConfig(w, PatchMerger(w), OneCase(configs, c, node), q, c).value.status)
    ensures Upsert(w, PatchMerger(w), OneCase(configs, c, node), q).Written?
  {
    var catalog := OneCase(configs, c, node);
    assert CaseIndex(catalog.cases, q.caseID) == 0;
    var next, edited := NextConfig(w, PatchMerger(w), catalog, q, c).value, NextCase(w, q, c).value;
    var after := catalog.(configs := Upserted(configs, next), cases := catalog.cases[0 := edited]);
    WrittenIsFound(configs, next);
    assert after.configs[IndexOfID(after.configs, next.id)] == next && next in after.configs;
    assert node in after.nodes;
    if w.normalize(edited.status) == Some("active") {
      NextIsRunnable(w, catalog, q, c);
    }
    assert Validates(w, after, edited);
  }

  lemma NotSelectedForOneCase(w: Words, configs: seq<Config>, c: ApiCase, node: Node, q: Request)
    requires WellBehaved(w) && UniqueIDs(configs) && w.trim(q.configID) == ""
    requires Upsert(w, PatchMerger(w), OneCase(configs, c, node), q).Written? && !WillBeSelected(w, configs, q)
    ensures var r := Upsert(w, PatchMerger(w), OneCase(configs, c, node), q); SelectedID(w, r.catalog.configs, q) != r.configID
  {
    PatchMergerIsSound(w);
    UpsertClosesSelection(w, PatchMerger(w), OneCase(configs, c, node), q);
  }

  lemma InactiveIsPrepared(w: Words, q: Request)
    requires WellBehaved(w) && q == ForCase(q.caseID, q.status, q.patch) && w.trim(q.status) != ""
    ensures Prepare(w, Existing([], TargetID(w, [], q)), TargetID(w, [], q), q).status == w.trim(q.status)
    ensures Prepare(w, Existing([], TargetID(w, [], q)), TargetID(w, [], q), q).json == Blank
    ensures WillBeSelected(w, [], q) ==> w.trim(q.status) == "active"
  {
  }

  /**
   * A configuration that is written with another status than active is not the one the runner selects: Active, which
   * the validation takes for active, or any status if the case is a draft.
   */
  lemma InactiveIsNotSelected(w: Words, c: ApiCase, node: Node, status: string, patch: Patch)
    requires WellBehaved(w) && Maintained(w, c, node) && ValidatesPlainly(w, c.other)
    requires w.normalize(c.status) == Some("active") ==> w.active(w.trim(status))
    requires w.trim(status) !in {"", "active"}
    ensures var q := ForCase(c.id, status, patch);
      var r := Upsert(w, PatchMerger(w), OneCase([], c, node), q);
      r.Written? && SelectedID(w, r.catalog.configs, q) != r.configID
  {
    var q := ForCase(c.id, status, patch);
    InactiveIsPrepared(w, q);
    WrittenForOneCase(w, [], c, node, q);
    NotSelectedForOneCase(w, [], c, node, q);
  }

  lemma OtherScopeIsPrepared(w: Words, stored: Config, q: Request)
    requires WellBehaved(w) && q == ForCase(q.caseID, "", q.patch) && stored.scopeID !in {"", q.caseID}
    requires stored == Config(w.fallback(q.caseID, "", ""), "case", stored.scopeID, "", "active", Blank, 0)
    ensures TargetID(w, [stored], q) == stored.id && Existing([stored], stored.id) == Some(stored)
    ensures Prepare(w, Some(stored), stored.id, q) == stored && !WillBeSelected(w, [stored], q)
  {
    assert !CaseMatcher(w, q)(stored);
    assert FirstID([stored], CaseMatcher(w, q)) == "";
  }

  /** Nor is one that was found under the id made from the case's name and is scoped to another case. */
  lemma OtherScopeIsNotSelected(w: Words, c: ApiCase, node: Node, other: string, patch: Patch)
    requires WellBehaved(w) && Maintained(w, c, node) && ValidatesPlainly(w, c.other) && w.active("active")
    requires other !in {"", c.id}
    ensures var q, stored := ForCase(c.id, "", patch), Config(w.fallback(c.id, "", ""), "case", other, "", "active", Blank, 0);
      var r := Upsert(w, PatchMerger(w), OneCase([stored], c, node), q);
      r.Written? && !r.created && SelectedID(w, r.catalog.configs, q) != r.configID
  {
    var q, stored := ForCase(c.id, "", patch), Config(w.fallback(c.id, "", ""), "case", other, "", "active", Blank, 0);
    OtherScopeIsPrepared(w, stored, q);
    WrittenForOneCase(w, [stored], c, node, q);
    NotSelectedForOneCase(w, [stored], c, node, q);
  }
}
