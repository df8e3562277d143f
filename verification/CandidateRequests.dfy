/** The candidate preparation request: its parser and its printer as functions, and the
    round trip that a second preflight relies on. */
module CandidateRequests {
  import opened Wrappers
  import opened Sorting
  import opened Utf8
  import opened RelativePaths

  const MAX_PATHS := 64
  const MAX_INTEGRATION_RECEIPTS := 8
  const V26_SCHEMA_VERSION := 14
  const EXPECTED_V26_TOOL_COUNT := 76
  const EMPTY_PATCH_HASH := "e3b0c44298fc1c149afbf4c8996fb92427ae41e4649b934ca495991b7852b855"

  /** The parameter names that the parser looks up. */
  datatype Key =
    | WorkspaceId | SourceMode | BaseRevision | PatchHash | PermittedPaths | IntegrationReceipts
    | IntegrationReceiptId | ReceiptId | BootstrapContract | SchemaVersion | ToolCount | ToolSchemaHash | ArtifactRole

  /** JSON values; of an object, the fields that the parser looks up. */
  datatype Json =
    | Null | Bool(truth: bool) | Int(number: int) | Float(quantity: real) | Text(text: string)
    | List(items: seq<Json>) | Object(fields: map<Key, Json>)

  datatype Mode = IntegratedPatch | CommittedHead

  datatype Role = Candidate | RecoveryBaseline

  datatype Group = Group(receiptId: string, paths: seq<string>)

  datatype Source = Source(workspace: string, mode: Mode, base: string, patchHash: string)

  datatype Contract = Contract(bootstrap: string, schema: int, toolCount: int, toolHash: string, role: Role)

  datatype Request = Request(source: Source, paths: seq<string>, groups: seq<Group>, contract: Contract)

  datatype Error =
    | ArgumentInvalid | SourceModeInvalid | BaseInvalid | PatchInvalid | CommittedHeadInvalid
    | PathsInvalid | ReceiptInvalid | SchemaInvalid | CatalogInvalid | RoleInvalid

  // ---------------------------------------------------------------- texts

  predicate Alphanumeric(c: char) {
    'A' <= c <= 'Z' || 'a' <= c <= 'z' || '0' <= c <= '9'
  }

  predicate IsWorkspaceId(s: string) {
    && 1 <= |s| <= 256 && Alphanumeric(s[0])
    && forall c :: c in s ==> Alphanumeric(c) || c in {'.', '_', ':', '/', '-'}
  }

  predicate IsHex(s: string, n: nat) {
    |s| == n && forall c :: c in s ==> '0' <= c <= '9' || 'a' <= c <= 'f'
  }

  function LowerChar(c: char): char {
    if 'A' <= c <= 'Z' then (c as int + 32) as char else c
  }

  function Lower(s: string): (r: string)
    ensures |r| == |s| && forall i :: 0 <= i < |s| ==> r[i] == LowerChar(s[i])
  {
    seq(|s|, i requires 0 <= i < |s| => LowerChar(s[i]))
  }

  function ModeText(m: Mode): string {
    match m
    case IntegratedPatch => "integrated_patch"
    case CommittedHead => "committed_head"
  }

  function ModeOf(s: string): (r: Option<Mode>)
    ensures forall m :: r == Some(m) <==> s == ModeText(m)
  {
    if s == "integrated_patch" then Some(IntegratedPatch)
    else if s == "committed_head" then Some(CommittedHead)
    else None
  }

  function RoleText(r: Role): string {
    match r
    case Candidate => "candidate"
    case RecoveryBaseline => "recovery_baseline"
  }

  function RoleOf(s: string): (r: Option<Role>)
    ensures forall m :: r == Some(m) <==> s == RoleText(m)
  {
    if s == "candidate" then Some(Candidate)
    else if s == "recovery_baseline" then Some(RecoveryBaseline)
    else None
  }

  // ---------------------------------------------------------------- parsing

  function Get(params: map<Key, Json>, key: Key): Json {
    if key in params then params[key] else Null
  }

  predicate BoundedText(j: Json, maximum: nat) {
    j.Text? && j.text != "" && ByteLen(j.text) <= maximum
  }

  /** Workspace, source mode, base revision and patch hash, checked in this order. */
  function ParseSource(params: map<Key, Json>): (r: Result<Source, Error>) {
    var mode := if SourceMode in params then params[SourceMode] else Text(ModeText(IntegratedPatch));
    SourceOf(Get(params, WorkspaceId), mode, Get(params, BaseRevision), Get(params, PatchHash))
  }

  function SourceOf(workspace: Json, mode: Json, base: Json, hash: Json): (r: Result<Source, Error>) {
    if !BoundedText(workspace, 256) || !IsWorkspaceId(workspace.text) then Err(ArgumentInvalid)
    else if !mode.Text? || ModeOf(mode.text).None? then Err(SourceModeInvalid)
    else if !BoundedText(base, 40) || !BoundedText(hash, 64) then Err(ArgumentInvalid)
    else if !IsHex(Lower(base.text), 40) then Err(BaseInvalid)
    else if !IsHex(Lower(hash.text), 64) then Err(PatchInvalid)
    else Ok(Source(workspace.text, ModeOf(mode.text).value, Lower(base.text), Lower(hash.text)))
  }

  predicate AllSafe(items: seq<Json>) {
    forall i :: 0 <= i < |items| ==> items[i].Text? && SafePath(items[i].text)
  }

  function Texts(items: seq<Json>): (r: seq<string>)
    requires AllSafe(items)
    ensures |r| == |items| && forall i :: 0 <= i < |r| ==> r[i] == items[i].text
  {
    seq(|items|, i requires 0 <= i < |items| => items[i].text)
  }

  /** A list of unique safe paths, sorted; `repeated` is the error for a repeated path. */
  function ParsePathList(items: seq<Json>, repeated: Error): (r: Result<seq<string>, Error>) {
    if !AllSafe(items) then Err(PathsInvalid)
    else if !NoDuplicates(Texts(items)) then Err(repeated)
    else Ok(SortBy(StrLe, Texts(items)))
  }

  function ParsePaths(mode: Mode, raw: Json): (r: Result<seq<string>, Error>) {
    match mode
    case CommittedHead => if raw == List([]) then Ok([]) else Err(CommittedHeadInvalid)
    case IntegratedPatch =>
      if !raw.List? || !(1 <= |raw.items| <= MAX_PATHS) then Err(PathsInvalid)
      else ParsePathList(raw.items, PathsInvalid)
  }

  predicate Overlaps(paths: seq<string>, groups: seq<Group>) {
    exists i, p :: 0 <= i < |groups| && p in groups[i].paths && p in paths
  }

  predicate HasReceipt(id: string, groups: seq<Group>) {
    exists i :: 0 <= i < |groups| && groups[i].receiptId == id
  }

  /** One receipt entry, given the groups before it. */
  function ParseGroup(item: Json, before: seq<Group>): (r: Result<Group, Error>) {
    if !item.Object? then Err(ReceiptInvalid)
    else
      var id := Get(item.fields, ReceiptId);
      var raw := Get(item.fields, PermittedPaths);
      if !BoundedText(id, 256) || HasReceipt(id.text, before) then Err(ReceiptInvalid)
      else if !raw.List? || !(1 <= |raw.items| <= MAX_PATHS) then Err(ReceiptInvalid)
      else
        var paths := ParsePathList(raw.items, ReceiptInvalid);
        if paths.Err? then Err(paths.error)
        else if Overlaps(paths.value, before) then Err(ReceiptInvalid)
        else Ok(Group(id.text, paths.value))
  }

  function ParseGroups(items: seq<Json>): (r: Result<seq<Group>, Error>) {
    if items == [] then Ok([])
    else
      var n := |items| - 1;
      var before := ParseGroups(items[..n]);
      if before.Err? then before
      else
        var group := ParseGroup(items[n], before.value);
        if group.Err? then Err(group.error) else Ok(before.value + [group.value])
  }

  predicate InSome(p: string, groups: seq<Group>) {
    exists i :: 0 <= i < |groups| && p in groups[i].paths
  }

  /** The groups bind the permitted paths, each of them and no other. */
  ghost predicate Covers(groups: seq<Group>, paths: seq<string>) {
    forall p :: p in paths <==> InSome(p, groups)
  }

  ghost function ParseReceipts(params: map<Key, Json>, mode: Mode, paths: seq<string>): (r: Result<seq<Group>, Error>) {
    var raw := Get(params, IntegrationReceipts);
    if mode == CommittedHead then
      if IntegrationReceiptId in params || raw != List([]) then Err(CommittedHeadInvalid) else Ok([])
    else if raw == Null then
      var id := Get(params, IntegrationReceiptId);
      if BoundedText(id, 256) then Ok([Group(id.text, paths)]) else Err(ArgumentInvalid)
    else if !raw.List? || !(1 <= |raw.items| <= MAX_INTEGRATION_RECEIPTS) then Err(ReceiptInvalid)
    else
      var groups := ParseGroups(raw.items);
      if groups.Ok? && !Covers(groups.value, paths) then Err(ReceiptInvalid) else groups
  }

  /** Contract, schema, tool count, tool hash and role, checked in this order. */
  function ParseContract(params: map<Key, Json>): (r: Result<Contract, Error>) {
    ContractOf(Get(params, BootstrapContract), Get(params, SchemaVersion), Get(params, ToolCount),
               Get(params, ToolSchemaHash), Get(params, ArtifactRole))
  }

  function ContractOf(bootstrap: Json, schema: Json, toolCount: Json, hash: Json, role: Json): (r: Result<Contract, Error>) {
    if !BoundedText(bootstrap, 128) then Err(ArgumentInvalid)
    else if schema != Int(V26_SCHEMA_VERSION) then Err(SchemaInvalid)
    else if toolCount != Int(EXPECTED_V26_TOOL_COUNT) then Err(CatalogInvalid)
    else if !BoundedText(hash, 64) then Err(ArgumentInvalid)
    else if !IsHex(Lower(hash.text), 64) then Err(CatalogInvalid)
    else if !BoundedText(role, 32) then Err(ArgumentInvalid)
    else if RoleOf(role.text).None? then Err(RoleInvalid)
    else Ok(Contract(bootstrap.text, V26_SCHEMA_VERSION, EXPECTED_V26_TOOL_COUNT, Lower(hash.text), RoleOf(role.text).value))
  }

  /** `from_params`. */
  ghost function Parse(params: map<Key, Json>): (r: Result<Request, Error>) {
    var source := ParseSource(params);
    if source.Err? then Err(source.error) else ParseRest(params, source.value)
  }

  /** Paths, receipts, the hash of an empty patch, and the contract, checked in this order. */
  ghost function ParseRest(params: map<Key, Json>, source: Source): (r: Result<Request, Error>)
    ensures r.Ok? ==> r.value.source == source
  {
    var paths := ParsePaths(source.mode, Get(params, PermittedPaths));
    if paths.Err? then Err(paths.error)
    else
      var groups := ParseReceipts(params, source.mode, paths.value);
      if groups.Err? then Err(groups.error)
      else if source.mode == CommittedHead && source.patchHash != EMPTY_PATCH_HASH then Err(CommittedHeadInvalid)
      else
        var contract := ParseContract(params);
        if contract.Err? then Err(contract.error)
        else Ok(Request(source, paths.value, groups.value, contract.value))
  }

  // ---------------------------------------------------------------- printing

  function PrintPaths(paths: seq<string>): (r: Json) {
    List(seq(|paths|, i requires 0 <= i < |paths| => Text(paths[i])))
  }

  function PrintGroup(g: Group): (r: Json) {
    Object(map[ReceiptId := Text(g.receiptId), PermittedPaths := PrintPaths(g.paths)])
  }

  function PrintGroups(groups: seq<Group>): (r: seq<Json>)
    ensures |r| == |groups| && forall i :: 0 <= i < |r| ==> r[i] == PrintGroup(groups[i])
  {
    seq(|groups|, i requires 0 <= i < |groups| => PrintGroup(groups[i]))
  }

  /** `to_params`. */
  function Print(r: Request): (params: map<Key, Json>) {
    map[WorkspaceId := Text(r.source.workspace), SourceMode := Text(ModeText(r.source.mode)),
        BaseRevision := Text(r.source.base), PatchHash := Text(r.source.patchHash),
        PermittedPaths := PrintPaths(r.paths), IntegrationReceipts := List(PrintGroups(r.groups)),
        BootstrapContract := Text(r.contract.bootstrap), SchemaVersion := Int(r.contract.schema),
        ToolCount := Int(r.contract.toolCount), ToolSchemaHash := Text(r.contract.toolHash),
        ArtifactRole := Text(RoleText(r.contract.role))]
  }

  // ---------------------------------------------------------------- accepted requests

  ghost predicate WellFormedPaths(paths: seq<string>) {
    && 1 <= |paths| <= MAX_PATHS && NoDuplicates(paths) && Sorted(StrLe, paths)
    && forall i :: 0 <= i < |paths| ==> SafePath(paths[i])
  }

  ghost predicate WellFormedId(id: string) {
    id != "" && ByteLen(id) <= 256
  }

  /** Receipt groups: distinct receipts, pairwise disjoint path lists. */
  ghost predicate WellFormedGroups(groups: seq<Group>) {
    && (forall i :: 0 <= i < |groups| ==> WellFormedId(groups[i].receiptId) && WellFormedPaths(groups[i].paths))
    && (forall i, j :: 0 <= i < j < |groups| ==> groups[i].receiptId != groups[j].receiptId)
    && (forall i, j, p :: 0 <= i < j < |groups| && p in groups[i].paths ==> p !in groups[j].paths)
  }

  ghost predicate WellFormedSource(s: Source) {
    && IsWorkspaceId(s.workspace) && IsHex(s.base, 40) && IsHex(s.patchHash, 64)
    && (s.mode == CommittedHead ==> s.patchHash == EMPTY_PATCH_HASH)
  }

  ghost predicate WellFormedContract(c: Contract) {
    && c.bootstrap != "" && ByteLen(c.bootstrap) <= 128 && IsHex(c.toolHash, 64)
    && c.schema == V26_SCHEMA_VERSION && c.toolCount == EXPECTED_V26_TOOL_COUNT
  }

  /** What a request is: committed heads bind nothing; patches bind paths that their
      receipt groups partition. */
  ghost predicate WellFormed(r: Request) {
    && WellFormedSource(r.source) && WellFormedContract(r.contract)
    && match r.source.mode
       case CommittedHead => r.paths == [] && r.groups == []
       case IntegratedPatch =>
         && WellFormedPaths(r.paths) && WellFormedGroups(r.groups)
         && 1 <= |r.groups| <= MAX_INTEGRATION_RECEIPTS && Covers(r.groups, r.paths)
  }

  lemma {:induction false} AsciiBytes(s: string)
    requires forall i :: 0 <= i < |s| ==> s[i] as int < 0x80
    ensures ByteLen(s) == |s|
  {
    if s != [] {
      AsciiBytes(s[1..]);
    }
  }

  lemma HexText(s: string, n: nat)
    requires IsHex(s, n)
    ensures Lower(s) == s && ByteLen(s) == n
  {
    forall i | 0 <= i < |s| ensures Lower(s)[i] == s[i] && s[i] as int < 0x80 {
      assert s[i] in s;
    }
    AsciiBytes(s);
  }

  lemma SortedKeeps(paths: seq<string>, safe: string -> bool)
    requires NoDuplicates(paths) && forall i :: 0 <= i < |paths| ==> safe(paths[i])
    ensures var r := SortBy(StrLe, paths);
            NoDuplicates(r) && Sorted(StrLe, r) && |r| == |paths| && forall i :: 0 <= i < |r| ==> safe(r[i])
  {
    var sorted := SortBy(StrLe, paths);
    StrLeIsTotal();
    SortBySorted(StrLe, paths);
    NoDuplicatesPermute(paths, sorted);
    SameElements(paths, sorted);
    forall i | 0 <= i < |sorted| ensures safe(sorted[i]) {
      assert sorted[i] in paths;
    }
  }

  lemma SortedPaths(paths: seq<string>)
    requires 1 <= |paths| <= MAX_PATHS && NoDuplicates(paths) && forall i :: 0 <= i < |paths| ==> SafePath(paths[i])
    ensures WellFormedPaths(SortBy(StrLe, paths))
  {
    SortedKeeps(paths, SafePath);
  }

  lemma ParsedPaths(items: seq<Json>, repeated: Error)
    requires 1 <= |items| <= MAX_PATHS && ParsePathList(items, repeated).Ok?
    ensures WellFormedPaths(ParsePathList(items, repeated).value)
  {
    SortedPaths(Texts(items));
  }

  lemma PrintedPaths(paths: seq<string>, repeated: Error)
    requires WellFormedPaths(paths)
    ensures ParsePathList(PrintPaths(paths).items, repeated) == Ok(paths)
  {
    var items := PrintPaths(paths).items;
    assert AllSafe(items);
    assert Texts(items) == paths;
    SortOfSorted(StrLe, paths);
  }

  lemma ParsedGroup(item: Json, before: seq<Group>)
    requires ParseGroup(item, before).Ok?
    ensures var g := ParseGroup(item, before).value;
            && WellFormedId(g.receiptId) && WellFormedPaths(g.paths) && !Overlaps(g.paths, before)
            && forall i :: 0 <= i < |before| ==> before[i].receiptId != g.receiptId
  {
    ParsedPaths(Get(item.fields, PermittedPaths).items, ReceiptInvalid);
  }

  lemma GroupAdded(before: seq<Group>, g: Group)
    requires WellFormedGroups(before) && WellFormedId(g.receiptId) && WellFormedPaths(g.paths) && !Overlaps(g.paths, before)
    requires forall i :: 0 <= i < |before| ==> before[i].receiptId != g.receiptId
    ensures WellFormedGroups(before + [g])
  {
    var all := before + [g];
    assert forall i, p :: 0 <= i < |before| && p in before[i].paths ==> p !in g.paths;
    forall i, j, p | 0 <= i < j < |all| && p in all[i].paths ensures p !in all[j].paths {
      assert all[i] == before[i] && (j < |before| ==> all[j] == before[j]);
    }
  }

  lemma LastParsed(items: seq<Json>) returns (before: seq<Group>, g: Group)
    requires items != [] && ParseGroups(items).Ok?
    ensures ParseGroups(items[..|items| - 1]) == Ok(before) && ParseGroup(items[|items| - 1], before) == Ok(g)
    ensures ParseGroups(items).value == before + [g]
  {
    before := ParseGroups(items[..|items| - 1]).value;
    g := ParseGroup(items[|items| - 1], before).value;
  }

  lemma {:induction false} ParsedGroups(items: seq<Json>, groups: seq<Group>)
    requires ParseGroups(items) == Ok(groups)
    ensures WellFormedGroups(groups) && |groups| == |items|
    decreases |items|
  {
    if items != [] {
      var before, g := LastParsed(items);
      ParsedGroups(items[..|items| - 1], before);
      ParsedGroup(items[|items| - 1], before);
      GroupAdded(before, g);
    }
  }

  lemma PrintedGroup(g: Group, before: seq<Group>)
    requires WellFormedId(g.receiptId) && WellFormedPaths(g.paths) && !Overlaps(g.paths, before)
    requires forall i :: 0 <= i < |before| ==> before[i].receiptId != g.receiptId
    ensures ParseGroup(PrintGroup(g), before) == Ok(g)
  {
    PrintedPaths(g.paths, ReceiptInvalid);
  }

  lemma LastGroup(groups: seq<Group>)
    requires WellFormedGroups(groups) && groups != []
    ensures var n := |groups| - 1;
            && WellFormedGroups(groups[..n]) && WellFormedId(groups[n].receiptId) && WellFormedPaths(groups[n].paths)
            && !Overlaps(groups[n].paths, groups[..n])
            && forall i :: 0 <= i < n ==> groups[..n][i].receiptId != groups[n].receiptId
  {
  }

  lemma GroupsNext(items: seq<Json>, before: seq<Group>, g: Group, groups: seq<Group>)
    requires items != [] && groups == before + [g]
    requires ParseGroups(items[..|items| - 1]) == Ok(before) && ParseGroup(items[|items| - 1], before) == Ok(g)
    ensures ParseGroups(items) == Ok(groups)
  {
  }

  lemma LastGroupParses(groups: seq<Group>)
    requires WellFormedGroups(groups) && groups != []
    ensures WellFormedGroups(groups[..|groups| - 1])
    ensures ParseGroup(PrintGroup(groups[|groups| - 1]), groups[..|groups| - 1]) == Ok(groups[|groups| - 1])
  {
    LastGroup(groups);
    PrintedGroup(groups[|groups| - 1], groups[..|groups| - 1]);
  }

  lemma PrintedItems(groups: seq<Group>, items: seq<Json>)
    requires groups != [] && items == PrintGroups(groups)
    ensures var n := |groups| - 1;
            && items[..n] == PrintGroups(groups[..n]) && items[n] == PrintGroup(groups[n])
            && groups == groups[..n] + [groups[n]]
  {
  }

  lemma {:induction false} PrintedGroups(groups: seq<Group>, items: seq<Json>)
    requires WellFormedGroups(groups) && items == PrintGroups(groups)
    ensures ParseGroups(items) == Ok(groups)
    decreases |groups|
  {
    if groups != [] {
      var before, g := groups[..|groups| - 1], groups[|groups| - 1];
      PrintedItems(groups, items);
      LastGroupParses(groups);
      PrintedGroups(before, items[..|items| - 1]);
      GroupsNext(items, before, g, groups);
    }
  }

  lemma ParsedSource(params: map<Key, Json>)
    requires ParseSource(params).Ok?
    ensures var s := ParseSource(params).value;
            IsWorkspaceId(s.workspace) && IsHex(s.base, 40) && IsHex(s.patchHash, 64)
  {
  }

  lemma PrintedSource(r: Request)
    requires WellFormedSource(r.source)
    ensures ParseSource(Print(r)) == Ok(r.source)
  {
    var s := r.source;
    forall i | 0 <= i < |s.workspace| ensures s.workspace[i] as int < 0x80 {
      assert s.workspace[i] in s.workspace;
    }
    AsciiBytes(s.workspace);
    HexText(s.base, 40);
    HexText(s.patchHash, 64);
    assert ModeOf(ModeText(s.mode)) == Some(s.mode);
  }

  lemma PrintedRole(role: Role)
    ensures BoundedText(Text(RoleText(role)), 32) && RoleOf(RoleText(role)) == Some(role)
  {
    AsciiBytes(RoleText(role));
  }

  lemma ContractParses(c: Contract)
    requires WellFormedContract(c)
    ensures ContractOf(Text(c.bootstrap), Int(c.schema), Int(c.toolCount), Text(c.toolHash), Text(RoleText(c.role))) == Ok(c)
  {
    HexText(c.toolHash, 64);
    PrintedRole(c.role);
  }

  lemma PrintedContract(r: Request)
    requires WellFormedContract(r.contract)
    ensures ParseContract(Print(r)) == Ok(r.contract)
  {
    ContractParses(r.contract);
  }

  lemma ParsedReceipts(params: map<Key, Json>, paths: seq<string>)
    requires WellFormedPaths(paths) && ParseReceipts(params, IntegratedPatch, paths).Ok?
    ensures var groups := ParseReceipts(params, IntegratedPatch, paths).value;
            WellFormedGroups(groups) && 1 <= |groups| <= MAX_INTEGRATION_RECEIPTS && Covers(groups, paths)
  {
    var raw := Get(params, IntegrationReceipts);
    if raw == Null {
      var groups := ParseReceipts(params, IntegratedPatch, paths).value;
      assert groups[0].paths == paths;
    } else {
      ParsedGroups(raw.items, ParseGroups(raw.items).value);
    }
  }

  lemma RestOfParsed(params: map<Key, Json>, r: Request)
    requires ParseRest(params, r.source) == Ok(r)
    ensures ParseContract(params) == Ok(r.contract)
    ensures ParsePaths(r.source.mode, Get(params, PermittedPaths)) == Ok(r.paths)
    ensures ParseReceipts(params, r.source.mode, r.paths) == Ok(r.groups)
    ensures r.source.mode == CommittedHead ==> r.source.patchHash == EMPTY_PATCH_HASH
  {
  }

  lemma PartsOfParsed(params: map<Key, Json>, r: Request)
    requires Parse(params) == Ok(r)
    ensures ParseSource(params) == Ok(r.source) && ParseContract(params) == Ok(r.contract)
    ensures ParsePaths(r.source.mode, Get(params, PermittedPaths)) == Ok(r.paths)
    ensures ParseReceipts(params, r.source.mode, r.paths) == Ok(r.groups)
    ensures r.source.mode == CommittedHead ==> r.source.patchHash == EMPTY_PATCH_HASH
  {
    RestOfParsed(params, r);
  }

  /** Every accepted request is well formed: its receipt groups partition its permitted paths. */
  lemma AcceptedIsWellFormed(params: map<Key, Json>, r: Request)
    requires Parse(params) == Ok(r)
    ensures WellFormed(r)
  {
    PartsOfParsed(params, r);
    ParsedSource(params);
    if r.source.mode == IntegratedPatch {
      ParsedPaths(Get(params, PermittedPaths).items, PathsInvalid);
      ParsedReceipts(params, r.paths);
    }
  }

  /** A list of printed groups parses to the groups when they partition the paths. */
  lemma ListedReceipts(params: map<Key, Json>, groups: seq<Group>, paths: seq<string>)
    requires Get(params, IntegrationReceipts) == List(PrintGroups(groups))
    requires WellFormedGroups(groups) && 1 <= |groups| <= MAX_INTEGRATION_RECEIPTS && Covers(groups, paths)
    ensures ParseReceipts(params, IntegratedPatch, paths) == Ok(groups)
  {
    PrintedGroups(groups, PrintGroups(groups));
  }

  lemma PrintedFields(r: Request)
    ensures Get(Print(r), PermittedPaths) == PrintPaths(r.paths)
    ensures Get(Print(r), IntegrationReceipts) == List(PrintGroups(r.groups))
    ensures IntegrationReceiptId !in Print(r)
  {
  }

  lemma PrintedReceipts(r: Request, params: map<Key, Json>)
    requires WellFormed(r) && IntegrationReceiptId !in params
    requires Get(params, PermittedPaths) == PrintPaths(r.paths)
    requires Get(params, IntegrationReceipts) == List(PrintGroups(r.groups))
    ensures ParsePaths(r.source.mode, Get(params, PermittedPaths)) == Ok(r.paths)
    ensures ParseReceipts(params, r.source.mode, r.paths) == Ok(r.groups)
  {
    if r.source.mode == IntegratedPatch {
      PrintedPaths(r.paths, PathsInvalid);
      ListedReceipts(params, r.groups, r.paths);
    }
  }

  /** The parser from the outcomes of its parts. */
  lemma ParsedFromParts(params: map<Key, Json>, r: Request)
    requires ParseSource(params) == Ok(r.source) && ParseContract(params) == Ok(r.contract)
    requires ParsePaths(r.source.mode, Get(params, PermittedPaths)) == Ok(r.paths)
    requires ParseReceipts(params, r.source.mode, r.paths) == Ok(r.groups)
    requires r.source.mode == CommittedHead ==> r.source.patchHash == EMPTY_PATCH_HASH
    ensures Parse(params) == Ok(r)
  {
  }

  /** Printing and parsing again gives the request back exactly when it is well formed. */
  lemma PrintThenParse(r: Request)
    ensures WellFormed(r) <==> Parse(Print(r)) == Ok(r)
  {
    if WellFormed(r) {
      PrintedSource(r);
      PrintedFields(r);
      PrintedReceipts(r, Print(r));
      PrintedContract(r);
      ParsedFromParts(Print(r), r);
    } else if Parse(Print(r)) == Ok(r) {
      AcceptedIsWellFormed(Print(r), r);
    }
  }

  /** The re-preflight of an accepted request, in either mode and from the legacy form, parses
      the same request. */
  lemma AcceptedParsesAgain(params: map<Key, Json>, r: Request)
    requires Parse(params) == Ok(r)
    ensures Parse(Print(r)) == Ok(r)
  {
    AcceptedIsWellFormed(params, r);
    PrintThenParse(r);
  }

  lemma LegacyReceipts(params: map<Key, Json>, id: string, paths: seq<string>, groups: seq<Group>)
    requires Get(params, IntegrationReceipts) == Null && Get(params, IntegrationReceiptId) == Text(id)
    requires ParseReceipts(params, IntegratedPatch, paths) == Ok(groups)
    ensures groups == [Group(id, paths)]
  {
  }

  /** The legacy form, one receipt id and no list, means the list of that one receipt. */
  lemma LegacyForm(params: map<Key, Json>, id: string, r: Request, listed: map<Key, Json>)
    requires Parse(params) == Ok(r) && r.source.mode == IntegratedPatch
    requires Get(params, IntegrationReceipts) == Null && Get(params, IntegrationReceiptId) == Text(id)
    requires listed == params[IntegrationReceipts := List([PrintGroup(Group(id, r.paths))])]
    ensures r.groups == [Group(id, r.paths)] && Parse(listed) == Ok(r)
  {
    PartsOfParsed(params, r);
    LegacyReceipts(params, id, r.paths, r.groups);
    AcceptedIsWellFormed(params, r);
    ListedField(params, Group(id, r.paths), listed);
    ListedReceipts(listed, r.groups, r.paths);
    SameElsewhere(params, listed, r);
    ParsedFromParts(listed, r);
  }

  lemma ListedField(params: map<Key, Json>, g: Group, listed: map<Key, Json>)
    requires listed == params[IntegrationReceipts := List([PrintGroup(g)])]
    ensures Get(listed, IntegrationReceipts) == List(PrintGroups([g]))
    ensures forall k :: k != IntegrationReceipts ==> (k in params <==> k in listed) && Get(params, k) == Get(listed, k)
  {
    assert PrintGroups([g]) == [PrintGroup(g)];
  }

  lemma SameElsewhere(params: map<Key, Json>, other: map<Key, Json>, r: Request)
    requires forall k :: k != IntegrationReceipts ==> (k in params <==> k in other) && Get(params, k) == Get(other, k)
    requires ParseSource(params) == Ok(r.source) && ParseContract(params) == Ok(r.contract)
    ensures ParseSource(other) == Ok(r.source) && ParseContract(other) == Ok(r.contract)
    ensures Get(other, PermittedPaths) == Get(params, PermittedPaths)
  {
    assert ParseSource(other) == ParseSource(params) by {
      assert SourceMode in params <==> SourceMode in other;
    }
    assert ParseContract(other) == ParseContract(params);
  }
}
