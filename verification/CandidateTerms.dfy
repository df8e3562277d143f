/** Which parameters `from_params` accepts and what it makes of them, field by field. */
module CandidateTerms {
  import opened Wrappers
  import opened Sorting
  import opened Utf8
  import opened RelativePaths
  import opened CandidateRequests

  // ---------------------------------------------------------------- texts

  ghost predicate TextField(params: map<Key, Json>, key: Key, maximum: nat, value: string) {
    key in params && params[key] == Text(value) && value != "" && ByteLen(value) <= maximum
  }

  /** A digest is given in either case and kept in lower case. */
  ghost predicate HexField(params: map<Key, Json>, key: Key, digits: nat, value: string) {
    exists raw :: TextField(params, key, digits, raw) && Lowered(raw, value) && |value| == digits
                  && forall i :: 0 <= i < digits ==> value[i] in "0123456789abcdef"
  }

  ghost predicate Lowered(raw: string, value: string) {
    && |raw| == |value|
    && forall i :: 0 <= i < |raw| ==>
         if 'A' <= raw[i] <= 'Z' then value[i] as int - 'a' as int == raw[i] as int - 'A' as int else value[i] == raw[i]
  }

  lemma LowerExactly(raw: string, value: string)
    ensures value == Lower(raw) <==> Lowered(raw, value)
  {
  }

  lemma HexDigit(c: char)
    ensures c in "0123456789abcdef" <==> '0' <= c <= '9' || 'a' <= c <= 'f'
  {
    var digits := "0123456789abcdef";
    if '0' <= c <= '9' {
      assert digits[c as int - '0' as int] == c;
    }
    if 'a' <= c <= 'f' {
      assert digits[c as int - 'a' as int + 10] == c;
    }
  }

  lemma HexExactly(s: string, n: nat)
    ensures IsHex(s, n) <==> |s| == n && forall i :: 0 <= i < n ==> s[i] in "0123456789abcdef"
  {
    forall c ensures c in "0123456789abcdef" <==> '0' <= c <= '9' || 'a' <= c <= 'f' {
      HexDigit(c);
    }
    if IsHex(s, n) {
      assert forall i :: 0 <= i < n ==> s[i] in s;
    }
  }

  lemma FieldExactly(params: map<Key, Json>, key: Key, maximum: nat)
    ensures BoundedText(Get(params, key), maximum) <==> Get(params, key).Text? && TextField(params, key, maximum, Get(params, key).text)
  {
  }

  lemma HexFieldExactly(params: map<Key, Json>, key: Key, digits: nat, value: string)
    ensures HexField(params, key, digits, value)
            <==> && BoundedText(Get(params, key), digits) && IsHex(Lower(Get(params, key).text), digits)
                 && value == Lower(Get(params, key).text)
  {
    FieldExactly(params, key, digits);
    HexExactly(value, digits);
    if Get(params, key).Text? {
      LowerExactly(Get(params, key).text, value);
    }
  }

  const CAPITALS := "ABCDEFGHIJKLMNOPQRSTUVWXYZ"
  const SMALL := "abcdefghijklmnopqrstuvwxyz"
  const DIGITS := "0123456789"

  lemma CapitalsExactly(c: char)
    ensures c in CAPITALS <==> 'A' <= c <= 'Z'
  {
    if 'A' <= c <= 'Z' {
      assert CAPITALS[c as int - 'A' as int] == c;
    }
  }

  lemma SmallExactly(c: char)
    ensures c in SMALL <==> 'a' <= c <= 'z'
  {
    if 'a' <= c <= 'z' {
      assert SMALL[c as int - 'a' as int] == c;
    }
  }

  lemma DigitsExactly(c: char)
    ensures c in DIGITS <==> '0' <= c <= '9'
  {
    if '0' <= c <= '9' {
      assert DIGITS[c as int - '0' as int] == c;
    }
  }

  ghost predicate LetterOrDigit(c: char) {
    c in CAPITALS || c in SMALL || c in DIGITS
  }

  lemma AlphanumericExactly(c: char)
    ensures Alphanumeric(c) <==> LetterOrDigit(c)
  {
    CapitalsExactly(c);
    SmallExactly(c);
    DigitsExactly(c);
  }

  /** A workspace id: at most 256 letters, digits and marks, the first a letter or digit. */
  ghost predicate WorkspaceName(s: string) {
    && 0 < |s| < 257 && LetterOrDigit(s[0])
    && forall i :: 0 <= i < |s| ==> LetterOrDigit(s[i]) || s[i] in "._:/-"
  }

  lemma WorkspaceIdExactly(s: string)
    ensures IsWorkspaceId(s) <==> WorkspaceName(s)
  {
    forall c: char ensures Alphanumeric(c) <==> LetterOrDigit(c) {
      AlphanumericExactly(c);
    }
    forall c: char ensures c in "._:/-" <==> c in {'.', '_', ':', '/', '-'} {
      MarkExactly(c);
    }
    if IsWorkspaceId(s) {
      assert forall i :: 0 <= i < |s| ==> s[i] in s;
    }
  }

  lemma MarkExactly(c: char)
    ensures c in "._:/-" <==> c in {'.', '_', ':', '/', '-'}
  {
    var marks := "._:/-";
    assert marks[0] == '.' && marks[1] == '_' && marks[2] == ':' && marks[3] == '/' && marks[4] == '-';
  }

  // ---------------------------------------------------------------- source and contract

  /** The source mode is the named one, or the integrated patch when it is left out. */
  ghost predicate ModeField(params: map<Key, Json>, mode: Mode) {
    if SourceMode !in params then mode == IntegratedPatch
    else match mode
      case IntegratedPatch => params[SourceMode] == Text("integrated_patch")
      case CommittedHead => params[SourceMode] == Text("committed_head")
  }

  ghost predicate SourceTerms(params: map<Key, Json>, s: Source) {
    && TextField(params, WorkspaceId, 256, s.workspace) && WorkspaceName(s.workspace)
    && ModeField(params, s.mode)
    && HexField(params, BaseRevision, 40, s.base) && HexField(params, PatchHash, 64, s.patchHash)
  }

  lemma ModeExactly(params: map<Key, Json>, mode: Mode)
    ensures var raw := if SourceMode in params then params[SourceMode] else Text(ModeText(IntegratedPatch));
            ModeField(params, mode) <==> raw.Text? && ModeOf(raw.text) == Some(mode)
  {
  }

  /** The source of a request is accepted, and read, exactly so. */
  lemma SourceExactly(params: map<Key, Json>, s: Source)
    ensures ParseSource(params) == Ok(s) <==> SourceTerms(params, s)
  {
    ModeExactly(params, s.mode);
    WorkspaceIdExactly(s.workspace);
    FieldExactly(params, WorkspaceId, 256);
    HexFieldExactly(params, BaseRevision, 40, s.base);
    HexFieldExactly(params, PatchHash, 64, s.patchHash);
  }

  ghost predicate ContractTerms(params: map<Key, Json>, c: Contract) {
    && TextField(params, BootstrapContract, 128, c.bootstrap)
    && Get(params, SchemaVersion) == Int(14) && c.schema == 14
    && Get(params, ToolCount) == Int(76) && c.toolCount == 76
    && HexField(params, ToolSchemaHash, 64, c.toolHash)
    && (c.role == Candidate ==> Get(params, ArtifactRole) == Text("candidate"))
    && (c.role == RecoveryBaseline ==> Get(params, ArtifactRole) == Text("recovery_baseline"))
  }

  lemma RoleExactly(params: map<Key, Json>, role: Role)
    ensures BoundedText(Get(params, ArtifactRole), 32) && RoleOf(Get(params, ArtifactRole).text) == Some(role)
            <==> && (role == Candidate ==> Get(params, ArtifactRole) == Text("candidate"))
                 && (role == RecoveryBaseline ==> Get(params, ArtifactRole) == Text("recovery_baseline"))
  {
    PrintedRole(role);
  }

  lemma ContractOfExactly(bootstrap: Json, schema: Json, toolCount: Json, hash: Json, role: Json, c: Contract)
    ensures ContractOf(bootstrap, schema, toolCount, hash, role) == Ok(c)
            <==> && BoundedText(bootstrap, 128) && bootstrap.text == c.bootstrap
                 && schema == Int(14) && c.schema == 14 && toolCount == Int(76) && c.toolCount == 76
                 && BoundedText(hash, 64) && IsHex(Lower(hash.text), 64) && c.toolHash == Lower(hash.text)
                 && BoundedText(role, 32) && RoleOf(role.text) == Some(c.role)
  {
  }

  lemma ContractExactly(params: map<Key, Json>, c: Contract)
    ensures ParseContract(params) == Ok(c) <==> ContractTerms(params, c)
  {
    ContractOfExactly(Get(params, BootstrapContract), Get(params, SchemaVersion), Get(params, ToolCount),
                      Get(params, ToolSchemaHash), Get(params, ArtifactRole), c);
    FieldExactly(params, BootstrapContract, 128);
    HexFieldExactly(params, ToolSchemaHash, 64, c.toolHash);
    RoleExactly(params, c.role);
  }

  ghost predicate HasText(params: map<Key, Json>, key: Key, maximum: nat) {
    exists value :: TextField(params, key, maximum, value)
  }

  ghost predicate HasHex(params: map<Key, Json>, key: Key, digits: nat) {
    exists value :: HexField(params, key, digits, value)
  }

  ghost predicate HasMode(params: map<Key, Json>) {
    exists mode :: ModeField(params, mode)
  }

  ghost predicate HasRole(params: map<Key, Json>) {
    Get(params, ArtifactRole) == Text("candidate") || Get(params, ArtifactRole) == Text("recovery_baseline")
  }

  lemma HasTextExactly(params: map<Key, Json>, key: Key, maximum: nat)
    ensures HasText(params, key, maximum) <==> BoundedText(Get(params, key), maximum)
  {
    FieldExactly(params, key, maximum);
  }

  lemma HasHexExactly(params: map<Key, Json>, key: Key, digits: nat)
    ensures HasHex(params, key, digits)
            <==> BoundedText(Get(params, key), digits) && IsHex(Lower(Get(params, key).text), digits)
  {
    if BoundedText(Get(params, key), digits) {
      HexFieldExactly(params, key, digits, Lower(Get(params, key).text));
    }
    if value :| HexField(params, key, digits, value) {
      HexFieldExactly(params, key, digits, value);
    }
  }

  /** A workspace id of the right form is given. */
  ghost predicate HasWorkspace(params: map<Key, Json>) {
    exists name :: TextField(params, WorkspaceId, 256, name) && WorkspaceName(name)
  }

  lemma HasWorkspaceExactly(params: map<Key, Json>)
    ensures HasWorkspace(params)
            <==> BoundedText(Get(params, WorkspaceId), 256) && IsWorkspaceId(Get(params, WorkspaceId).text)
  {
    FieldExactly(params, WorkspaceId, 256);
    if Get(params, WorkspaceId).Text? {
      WorkspaceIdExactly(Get(params, WorkspaceId).text);
    }
  }

  lemma HasModeExactly(params: map<Key, Json>)
    ensures var raw := if SourceMode in params then params[SourceMode] else Text(ModeText(IntegratedPatch));
            HasMode(params) <==> raw.Text? && ModeOf(raw.text).Some?
  {
    ModeExactly(params, IntegratedPatch);
    ModeExactly(params, CommittedHead);
    var raw := if SourceMode in params then params[SourceMode] else Text(ModeText(IntegratedPatch));
    if raw.Text? && ModeOf(raw.text).Some? {
      ModeExactly(params, ModeOf(raw.text).value);
    }
  }

  /** Why a source is refused: workspace, mode, missing texts, revision, digest, in this order. */
  lemma SourceRefused(params: map<Key, Json>)
    ensures var r := ParseSource(params);
            var named := HasWorkspace(params);
            var given := HasText(params, BaseRevision, 40) && HasText(params, PatchHash, 64);
            && (r == Err(ArgumentInvalid) <==> !named || (HasMode(params) && !given))
            && (r == Err(SourceModeInvalid) <==> named && !HasMode(params))
            && (r == Err(BaseInvalid) <==> named && HasMode(params) && given && !HasHex(params, BaseRevision, 40))
            && (r == Err(PatchInvalid) <==>
                  named && HasMode(params) && given && HasHex(params, BaseRevision, 40) && !HasHex(params, PatchHash, 64))
  {
    HasWorkspaceExactly(params);
    HasModeExactly(params);
    HasTextExactly(params, BaseRevision, 40);
    HasTextExactly(params, PatchHash, 64);
    HasHexExactly(params, BaseRevision, 40);
    HasHexExactly(params, PatchHash, 64);
  }

  lemma HasRoleExactly(params: map<Key, Json>)
    ensures HasRole(params) <==> BoundedText(Get(params, ArtifactRole), 32) && RoleOf(Get(params, ArtifactRole).text).Some?
  {
    RoleExactly(params, Candidate);
    RoleExactly(params, RecoveryBaseline);
  }

  /** Why a contract is refused: bootstrap, schema, tool count, tool digest, role, in this order. */
  lemma ContractRefused(params: map<Key, Json>)
    ensures var r := ParseContract(params);
            var named := HasText(params, BootstrapContract, 128);
            var versioned := Get(params, SchemaVersion) == Int(14);
            var counted := Get(params, ToolCount) == Int(76);
            var given := HasText(params, ToolSchemaHash, 64);
            var hashed := HasHex(params, ToolSchemaHash, 64);
            && (r == Err(SchemaInvalid) <==> named && !versioned)
            && (r == Err(CatalogInvalid) <==> named && versioned && (!counted || (given && !hashed)))
            && (r == Err(RoleInvalid) <==>
                  named && versioned && counted && hashed && HasText(params, ArtifactRole, 32) && !HasRole(params))
            && (r == Err(ArgumentInvalid) <==>
                  !named || (versioned && counted && (!given || (hashed && !HasText(params, ArtifactRole, 32)))))
  {
    HasTextExactly(params, BootstrapContract, 128);
    HasTextExactly(params, ToolSchemaHash, 64);
    HasTextExactly(params, ArtifactRole, 32);
    HasHexExactly(params, ToolSchemaHash, 64);
    HasRoleExactly(params);
  }

  // ---------------------------------------------------------------- paths

  /** A list of at most 64 distinct safe paths, read in code-point order. */
  ghost predicate PathTerms(raw: Json, paths: seq<string>) {
    && raw.List? && 1 <= |raw.items| <= 64 && |paths| == |raw.items|
    && (forall i :: 0 <= i < |raw.items| ==> raw.items[i].Text? && SafePath(raw.items[i].text))
    && (forall p :: p in paths <==> Text(p) in raw.items)
    && NoDuplicates(paths) && Sorted(StrLe, paths)
  }

  lemma TextsMember(items: seq<Json>, p: string)
    requires AllSafe(items)
    ensures p in Texts(items) <==> Text(p) in items
  {
    if p in Texts(items) {
      var i :| 0 <= i < |items| && Texts(items)[i] == p;
      assert items[i] == Text(p);
    }
    if Text(p) in items {
      var i :| 0 <= i < |items| && items[i] == Text(p);
      assert Texts(items)[i] == p;
    }
  }

  /** Equally long, with the same members and nothing twice: one is a rearrangement of the other. */
  lemma SameSet(a: seq<string>, b: seq<string>)
    requires NoDuplicates(a) && |a| == |b| && forall p :: p in a <==> p in b
    ensures NoDuplicates(b) && multiset(a) == multiset(b)
  {
    var members := set p | p in a;
    DistinctSize(a, members);
    DistinctSize(b, members);
  }

  /** Sorting distinct texts: the one arrangement of them in code-point order. */
  lemma SortedExactly(texts: seq<string>, paths: seq<string>)
    ensures NoDuplicates(texts) && paths == SortBy(StrLe, texts)
            <==> && |paths| == |texts| && (forall p :: p in paths <==> p in texts)
                 && NoDuplicates(paths) && Sorted(StrLe, paths)
  {
    StrLeIsTotal();
    SortBySorted(StrLe, texts);
    SameElements(SortBy(StrLe, texts), texts);
    if NoDuplicates(texts) {
      NoDuplicatesPermute(texts, SortBy(StrLe, texts));
    }
    if |paths| == |texts| && (forall p :: p in paths <==> p in texts) && NoDuplicates(paths) && Sorted(StrLe, paths) {
      SameSet(paths, texts);
      StrSortUnique(paths, SortBy(StrLe, texts));
    }
  }

  lemma PathsExactly(raw: Json, repeated: Error, paths: seq<string>)
    requires raw.List? && 1 <= |raw.items| <= 64
    ensures ParsePathList(raw.items, repeated) == Ok(paths) <==> PathTerms(raw, paths)
  {
    if AllSafe(raw.items) {
      forall p ensures p in Texts(raw.items) <==> Text(p) in raw.items {
        TextsMember(raw.items, p);
      }
      SortedExactly(Texts(raw.items), paths);
    }
  }

  // ---------------------------------------------------------------- receipts

  /** One receipt entry, apart from what the entries before it bind. */
  ghost predicate EntryTerms(item: Json, g: Group) {
    && item.Object? && TextField(item.fields, ReceiptId, 256, g.receiptId)
    && PathTerms(Get(item.fields, PermittedPaths), g.paths)
  }

  ghost predicate Apart(g: Group, h: Group) {
    g.receiptId != h.receiptId && forall p :: p in g.paths ==> p !in h.paths
  }

  lemma GroupExactly(item: Json, before: seq<Group>, g: Group)
    ensures ParseGroup(item, before) == Ok(g) <==> EntryTerms(item, g) && forall i :: 0 <= i < |before| ==> Apart(before[i], g)
  {
    if item.Object? {
      var raw := Get(item.fields, PermittedPaths);
      FieldExactly(item.fields, ReceiptId, 256);
      if raw.List? && 1 <= |raw.items| <= 64 {
        PathsExactly(raw, ReceiptInvalid, g.paths);
      }
      ApartExactly(before, g);
    }
  }

  lemma ApartExactly(before: seq<Group>, g: Group)
    ensures !HasReceipt(g.receiptId, before) && !Overlaps(g.paths, before)
            <==> forall i :: 0 <= i < |before| ==> Apart(before[i], g)
  {
    if forall i :: 0 <= i < |before| ==> Apart(before[i], g) {
      assert forall i, p :: 0 <= i < |before| && p in before[i].paths ==> p !in g.paths;
    }
  }

  ghost predicate Paired(entry: (Json, Group) -> bool, items: seq<Json>, groups: seq<Group>) {
    |groups| == |items| && forall i :: 0 <= i < |items| ==> entry(items[i], groups[i])
  }

  ghost predicate AllApart(apart: (Group, Group) -> bool, groups: seq<Group>) {
    forall i, j :: 0 <= i < j < |groups| ==> apart(groups[i], groups[j])
  }

  /** The entries, each well formed, no two of one receipt or with a common path. */
  ghost predicate GroupsTerms(items: seq<Json>, groups: seq<Group>) {
    Paired(EntryTerms, items, groups) && AllApart(Apart, groups)
  }

  lemma PairedNext(entry: (Json, Group) -> bool, items: seq<Json>, item: Json, groups: seq<Group>, g: Group)
    ensures Paired(entry, items + [item], groups + [g]) <==> Paired(entry, items, groups) && entry(item, g)
  {
    var all, every := items + [item], groups + [g];
    if |items| == |groups| {
      assert all[|items|] == item && every[|items|] == g;
      assert forall i :: 0 <= i < |items| ==> all[i] == items[i] && every[i] == groups[i];
    }
  }

  lemma AllApartNext(apart: (Group, Group) -> bool, groups: seq<Group>, g: Group)
    ensures AllApart(apart, groups + [g]) <==> AllApart(apart, groups) && forall i :: 0 <= i < |groups| ==> apart(groups[i], g)
  {
    var every := groups + [g];
    assert every[|groups|] == g && forall i :: 0 <= i < |groups| ==> every[i] == groups[i];
  }

  lemma {:induction false} GroupsExactly(items: seq<Json>, groups: seq<Group>)
    ensures ParseGroups(items) == Ok(groups) <==> GroupsTerms(items, groups)
    decreases |items|
  {
    if items != [] && groups != [] {
      var n, m := |items| - 1, |groups| - 1;
      var init, before := items[..n], groups[..m];
      assert items == init + [items[n]] && groups == before + [groups[m]];
      PairedNext(EntryTerms, init, items[n], before, groups[m]);
      AllApartNext(Apart, before, groups[m]);
      GroupsExactly(init, before);
      GroupExactly(items[n], before, groups[m]);
      if ParseGroups(items) == Ok(groups) {
        LastRead(items, before, groups[m]);
      }
      if ParseGroups(init) == Ok(before) && ParseGroup(items[n], before) == Ok(groups[m]) {
        GroupsNext(items, before, groups[m], groups);
      }
    } else if items == [] {
      assert GroupsTerms(items, groups) <==> groups == [];
    }
  }

  lemma SnocEqual<T>(a: seq<T>, x: T, b: seq<T>, y: T)
    requires a + [x] == b + [y]
    ensures a == b && x == y
  {
    assert |a| == |a + [x]| - 1 == |b|;
    assert (a + [x])[|a|] == x && (b + [y])[|b|] == y;
    assert a == (a + [x])[..|a|] == b;
  }

  lemma LastRead(items: seq<Json>, before: seq<Group>, g: Group)
    requires items != [] && ParseGroups(items) == Ok(before + [g])
    ensures ParseGroups(items[..|items| - 1]) == Ok(before) && ParseGroup(items[|items| - 1], before) == Ok(g)
  {
    var b, h := LastParsed(items);
    SnocEqual(b, h, before, g);
  }

  /** The receipts bind the permitted paths: the one receipt of the legacy form binds them all;
      listed receipts bind each of them, and no other path. */
  ghost predicate ReceiptTerms(params: map<Key, Json>, paths: seq<string>, groups: seq<Group>) {
    var raw := Get(params, IntegrationReceipts);
    if raw == Null then
      |groups| == 1 && TextField(params, IntegrationReceiptId, 256, groups[0].receiptId) && groups[0].paths == paths
    else
      && raw.List? && 1 <= |raw.items| <= 8 && GroupsTerms(raw.items, groups)
      && forall p :: p in paths <==> exists g :: g in groups && p in g.paths
  }

  lemma CoversExactly(groups: seq<Group>, paths: seq<string>)
    ensures Covers(groups, paths) <==> forall p :: p in paths <==> exists g :: g in groups && p in g.paths
  {
    forall p ensures InSome(p, groups) <==> exists g :: g in groups && p in g.paths {
      if g :| g in groups && p in g.paths {
        var i :| 0 <= i < |groups| && groups[i] == g;
      }
    }
  }

  lemma ReceiptsExactly(params: map<Key, Json>, paths: seq<string>, groups: seq<Group>)
    ensures ParseReceipts(params, IntegratedPatch, paths) == Ok(groups) <==> ReceiptTerms(params, paths, groups)
  {
    var raw := Get(params, IntegrationReceipts);
    if raw == Null {
      FieldExactly(params, IntegrationReceiptId, 256);
      assert |groups| == 1 ==> groups == [Group(groups[0].receiptId, groups[0].paths)];
    } else if raw.List? && 1 <= |raw.items| <= 8 {
      GroupsExactly(raw.items, groups);
      CoversExactly(groups, paths);
    }
  }

  // ---------------------------------------------------------------- the whole request

  /** What the parameters say of paths and receipts: a committed head binds neither and has the
      digest of the empty patch. */
  ghost predicate ScopeTerms(params: map<Key, Json>, r: Request) {
    match r.source.mode
    case CommittedHead =>
      && Get(params, PermittedPaths) == List([]) && Get(params, IntegrationReceipts) == List([])
      && IntegrationReceiptId !in params && r.paths == [] && r.groups == []
      && r.source.patchHash == "e3b0c44298fc1c149afbf4c8996fb92427ae41e4649b934ca495991b7852b855"
    case IntegratedPatch =>
      PathTerms(Get(params, PermittedPaths), r.paths) && ReceiptTerms(params, r.paths, r.groups)
  }

  lemma ScopeExactly(params: map<Key, Json>, r: Request)
    ensures ScopeTerms(params, r)
            <==> && ParsePaths(r.source.mode, Get(params, PermittedPaths)) == Ok(r.paths)
                 && ParseReceipts(params, r.source.mode, r.paths) == Ok(r.groups)
                 && (r.source.mode == CommittedHead ==> r.source.patchHash == EMPTY_PATCH_HASH)
  {
    if r.source.mode == IntegratedPatch {
      var raw := Get(params, PermittedPaths);
      if raw.List? && 1 <= |raw.items| <= 64 {
        PathsExactly(raw, PathsInvalid, r.paths);
      }
      ReceiptsExactly(params, r.paths, r.groups);
    }
  }

  /** Parameters are accepted, and read as this request, exactly under these terms. */
  lemma AcceptedExactly(params: map<Key, Json>, r: Request)
    ensures Parse(params) == Ok(r) <==> SourceTerms(params, r.source) && ContractTerms(params, r.contract) && ScopeTerms(params, r)
  {
    SourceExactly(params, r.source);
    ContractExactly(params, r.contract);
    ScopeExactly(params, r);
    if Parse(params) == Ok(r) {
      PartsOfParsed(params, r);
    }
    if SourceTerms(params, r.source) && ContractTerms(params, r.contract) && ScopeTerms(params, r) {
      ParsedFromParts(params, r);
    }
  }
}
