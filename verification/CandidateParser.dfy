/** `CandidatePreparationRequest.from_params`: the loops that compute the parser's outcome. */
module CandidateParser {
  import opened Wrappers
  import opened Sorting
  import opened RelativePaths
  import opened CandidateRequests

  lemma ElementsNext(s: set<string>, texts: seq<string>, x: string)
    requires Elements(s, texts)
    ensures Elements(s + {x}, texts + [x])
  {
  }

  /** The first `i` items are safe paths, and `seen` holds their texts. */
  ghost predicate Collected(items: seq<Json>, i: nat, seen: set<string>) {
    i <= |items| && AllSafe(items[..i]) && Elements(seen, Texts(items[..i]))
  }

  lemma ItemAdded(before: seq<Json>, item: Json, after: seq<Json>, seen: set<string>)
    requires AllSafe(before) && Elements(seen, Texts(before))
    requires item.Text? && SafePath(item.text) && after == before + [item]
    ensures AllSafe(after) && Elements(seen + {item.text}, Texts(after))
  {
    assert Texts(after) == Texts(before) + [item.text];
    ElementsNext(seen, Texts(before), item.text);
  }

  lemma CollectedNext(items: seq<Json>, i: nat, seen: set<string>)
    requires Collected(items, i, seen) && i < |items| && items[i].Text? && SafePath(items[i].text)
    ensures Collected(items, i + 1, seen + {items[i].text})
  {
    assert items[..i + 1] == items[..i] + [items[i]];
    ItemAdded(items[..i], items[i], items[..i + 1], seen);
  }

  /** Collect every path in a set; the first unsafe one ends it. */
  method Collect(items: seq<Json>) returns (r: Option<set<string>>)
    ensures r.Some? <==> AllSafe(items)
    ensures r.Some? ==> Elements(r.value, Texts(items))
  {
    var seen: set<string> := {};
    var i := 0;
    while i < |items|
      invariant Collected(items, i, seen)
    {
      if !items[i].Text? || !SafePath(items[i].text) {
        return None;
      }
      CollectedNext(items, i, seen);
      seen := seen + {items[i].text};
      i := i + 1;
    }
    assert items[..i] == items;
    return Some(seen);
  }

  /** The sorted set of the paths; a smaller set than the list means a repeated path. */
  method PathList(items: seq<Json>, repeated: Error) returns (r: Result<seq<string>, Error>)
    ensures r == ParsePathList(items, repeated)
  {
    var seen := Collect(items);
    if seen.None? {
      return Err(PathsInvalid);
    }
    var sorted := SortedSet(seen.value);
    SortedTexts(Texts(items), seen.value, sorted);
    return if |sorted| != |items| then Err(repeated) else Ok(sorted);
  }

  lemma SortedTexts(texts: seq<string>, s: set<string>, sorted: seq<string>)
    requires Elements(s, texts) && Sorted(StrLe, sorted) && multiset(sorted) == multiset(s)
    ensures |sorted| == |texts| <==> NoDuplicates(texts)
    ensures NoDuplicates(texts) ==> sorted == SortBy(StrLe, texts)
  {
    DistinctSize(texts, s);
    assert |multiset(sorted)| == |sorted| && |multiset(s)| == |s|;
    if NoDuplicates(texts) {
      StrLeIsTotal();
      SortBySorted(StrLe, texts);
      StrSortUnique(sorted, SortBy(StrLe, texts));
    }
  }

  // ---------------------------------------------------------------- receipts

  ghost predicate SeenReceipts(seen: set<string>, groups: seq<Group>) {
    forall id :: id in seen <==> HasReceipt(id, groups)
  }

  ghost predicate SeenPaths(seen: set<string>, groups: seq<Group>) {
    forall p :: p in seen <==> InSome(p, groups)
  }

  lemma SeenNext(receipts: set<string>, paths: set<string>, groups: seq<Group>, g: Group)
    requires SeenReceipts(receipts, groups) && SeenPaths(paths, groups)
    ensures SeenReceipts(receipts + {g.receiptId}, groups + [g])
    ensures SeenPaths(paths + (set p | p in g.paths), groups + [g])
  {
    var all := groups + [g];
    assert all[|groups|] == g && forall i :: 0 <= i < |groups| ==> all[i] == groups[i];
    forall p ensures InSome(p, all) <==> InSome(p, groups) || p in g.paths {
      if InSome(p, groups) {
        var i :| 0 <= i < |groups| && p in groups[i].paths;
        assert p in all[i].paths;
      }
    }
    forall id ensures HasReceipt(id, all) <==> HasReceipt(id, groups) || g.receiptId == id {
      if HasReceipt(id, groups) {
        var i :| 0 <= i < |groups| && groups[i].receiptId == id;
        assert all[i].receiptId == id;
      }
    }
  }

  lemma SeenOverlaps(seen: set<string>, groups: seq<Group>, paths: seq<string>)
    requires SeenPaths(seen, groups)
    ensures (exists i :: 0 <= i < |paths| && paths[i] in seen) <==> Overlaps(paths, groups)
  {
    if i :| 0 <= i < |paths| && paths[i] in seen {
      var p := paths[i];
      assert InSome(p, groups);
      var j :| 0 <= j < |groups| && p in groups[j].paths;
      assert p in paths;
    }
    if Overlaps(paths, groups) {
      var j, p :| 0 <= j < |groups| && p in groups[j].paths && p in paths;
      var i :| 0 <= i < |paths| && paths[i] == p;
      assert InSome(p, groups);
    }
  }

  /** One receipt entry against the ids and paths seen so far. */
  method Entry(item: Json, ghost before: seq<Group>, seenReceipts: set<string>, seenPaths: set<string>)
    returns (r: Result<Group, Error>)
    requires SeenReceipts(seenReceipts, before) && SeenPaths(seenPaths, before)
    ensures r == ParseGroup(item, before)
  {
    if !item.Object? {
      return Err(ReceiptInvalid);
    }
    var id := Get(item.fields, ReceiptId);
    if !BoundedText(id, 256) || id.text in seenReceipts {
      return Err(ReceiptInvalid);
    }
    var raw := Get(item.fields, PermittedPaths);
    if !raw.List? || !(1 <= |raw.items| <= MAX_PATHS) {
      return Err(ReceiptInvalid);
    }
    var paths := PathList(raw.items, ReceiptInvalid);
    if paths.Err? {
      return Err(paths.error);
    }
    SeenOverlaps(seenPaths, before, paths.value);
    if exists i :: 0 <= i < |paths.value| && paths.value[i] in seenPaths {
      return Err(ReceiptInvalid);
    }
    return Ok(Group(id.text, paths.value));
  }

  lemma {:induction false} ErrorSticks(items: seq<Json>, k: nat, e: Error)
    requires k <= |items| && ParseGroups(items[..k]) == Err(e)
    ensures ParseGroups(items) == Err(e)
    decreases |items|
  {
    if k == |items| {
      assert items[..k] == items;
    } else {
      assert items[..|items| - 1][..k] == items[..k];
      ErrorSticks(items[..|items| - 1], k, e);
    }
  }

  lemma EntryNext(items: seq<Json>, k: nat, before: seq<Group>, g: Result<Group, Error>)
    requires k < |items| && ParseGroups(items[..k]) == Ok(before) && g == ParseGroup(items[k], before)
    ensures ParseGroups(items[..k + 1]) == if g.Ok? then Ok(before + [g.value]) else Err(g.error)
  {
    assert items[..k + 1][..k] == items[..k];
  }

  method Groups(items: seq<Json>, paths: seq<string>) returns (r: Result<seq<Group>, Error>)
    ensures var groups := ParseGroups(items);
            r == if groups.Ok? && !Covers(groups.value, paths) then Err(ReceiptInvalid) else groups
  {
    var groups: seq<Group> := [];
    var seenReceipts: set<string>, seenPaths: set<string> := {}, {};
    var i := 0;
    while i < |items|
      invariant i <= |items| && ParseGroups(items[..i]) == Ok(groups)
      invariant SeenReceipts(seenReceipts, groups) && SeenPaths(seenPaths, groups)
    {
      var g := Entry(items[i], groups, seenReceipts, seenPaths);
      EntryNext(items, i, groups, g);
      if g.Err? {
        ErrorSticks(items, i + 1, g.error);
        return Err(g.error);
      }
      SeenNext(seenReceipts, seenPaths, groups, g.value);
      seenReceipts := seenReceipts + {g.value.receiptId};
      seenPaths := seenPaths + (set p | p in g.value.paths);
      groups := groups + [g.value];
      i := i + 1;
    }
    assert items[..i] == items;
    if (set p | p in paths) != seenPaths {
      return Err(ReceiptInvalid);
    }
    return Ok(groups);
  }

  method Receipts(params: map<Key, Json>, mode: Mode, paths: seq<string>) returns (r: Result<seq<Group>, Error>)
    ensures r == ParseReceipts(params, mode, paths)
  {
    var raw := Get(params, IntegrationReceipts);
    if mode == CommittedHead {
      return if IntegrationReceiptId in params || raw != List([]) then Err(CommittedHeadInvalid) else Ok([]);
    }
    if raw == Null {
      var id := Get(params, IntegrationReceiptId);
      return if BoundedText(id, 256) then Ok([Group(id.text, paths)]) else Err(ArgumentInvalid);
    }
    if !raw.List? || !(1 <= |raw.items| <= MAX_INTEGRATION_RECEIPTS) {
      return Err(ReceiptInvalid);
    }
    r := Groups(raw.items, paths);
  }

  method Paths(mode: Mode, raw: Json) returns (r: Result<seq<string>, Error>)
    ensures r == ParsePaths(mode, raw)
  {
    if mode == CommittedHead {
      return if raw == List([]) then Ok([]) else Err(CommittedHeadInvalid);
    }
    if !raw.List? || !(1 <= |raw.items| <= MAX_PATHS) {
      return Err(PathsInvalid);
    }
    r := PathList(raw.items, PathsInvalid);
  }

  method FromParams(params: map<Key, Json>) returns (r: Result<Request, Error>)
    ensures r == Parse(params)
    ensures r.Ok? ==> WellFormed(r.value) && Parse(Print(r.value)) == r
  {
    var source := ParseSource(params);
    if source.Err? {
      return Err(source.error);
    }
    var paths := Paths(source.value.mode, Get(params, PermittedPaths));
    if paths.Err? {
      return Err(paths.error);
    }
    var groups := Receipts(params, source.value.mode, paths.value);
    if groups.Err? {
      return Err(groups.error);
    }
    if source.value.mode == CommittedHead && source.value.patchHash != EMPTY_PATCH_HASH {
      return Err(CommittedHeadInvalid);
    }
    var contract := ParseContract(params);
    if contract.Err? {
      return Err(contract.error);
    }
    r := Ok(Request(source.value, paths.value, groups.value, contract.value));
    ParsedFromParts(params, r.value);
    AcceptedIsWellFormed(params, r.value);
    AcceptedParsesAgain(params, r.value);
  }
}
