/** `build_context_pack`: a bounded, redacted pack of source slices. */
module ContextPacks {
  import opened Wrappers
  import opened Sorting
  import opened Utf8

  const MAX_CONTEXT_BYTES := 256 * 1024
  const MAX_CONTEXT_ITEMS := 128
  const MAX_CONTEXT_ITEM_BYTES := 64 * 1024

  /** SHA-256 of a text, taken as injective. */
  datatype Hash = Sha256(text: string)

  datatype Source = Source(path: string, content: string, startLine: nat)

  datatype Item = Item(path: string, content: string, startLine: nat, endLine: nat, truncated: bool, contentHash: Hash)

  /** What the pack id digests. */
  datatype Fingerprint = Fingerprint(workspace: string, revision: string, files: seq<(string, Hash, nat)>)

  datatype Pack = Pack(
    workspace: string, items: seq<Item>, totalBytes: nat, truncated: bool, omitted: seq<string>,
    revision: string, packId: Fingerprint, generatedAt: string)

  datatype Limits = Limits(bytes: int, items: int, itemBytes: int)

  datatype Error = WorkspaceInvalid | RevisionInvalid | BytesBound | ItemsBound | ItemBytesBound | PathsNotUnique

  /** The text rules of the policy layer, and its redaction. */
  datatype Rules = Rules(workspace: string -> bool, revision: string -> bool, redact: string -> string)

  function Newlines(s: string): nat {
    if s == [] then 0 else (if s[0] == '\n' then 1 else 0) + Newlines(s[1..])
  }

  function EndLine(start: nat, text: string): (r: nat)
    ensures r >= start
  {
    if text == [] then start else start + Newlines(text)
  }

  function Paths(sources: seq<Source>): (r: seq<string>)
    ensures |r| == |sources| && forall i :: 0 <= i < |r| ==> r[i] == sources[i].path
  {
    seq(|sources|, i requires 0 <= i < |sources| => sources[i].path)
  }

  function Files(sources: seq<Source>): (r: seq<(string, Hash, nat)>)
    ensures |r| == |sources|
    ensures forall i :: 0 <= i < |r| ==> r[i] == (sources[i].path, Sha256(sources[i].content), sources[i].startLine)
  {
    seq(|sources|, i requires 0 <= i < |sources| => (sources[i].path, Sha256(sources[i].content), sources[i].startLine))
  }

  function TotalBytes(items: seq<Item>): nat {
    if items == [] then 0 else TotalBytes(items[..|items| - 1]) + ByteLen(items[|items| - 1].content)
  }

  /** What limits a request, in the order in which the bounds are checked. */
  function Refusal(rules: Rules, workspace: string, revision: string, limits: Limits, sources: seq<Source>): (r: Option<Error>) {
    if !rules.workspace(workspace) then Some(WorkspaceInvalid)
    else if !rules.revision(revision) then Some(RevisionInvalid)
    else if !(1 <= limits.bytes <= MAX_CONTEXT_BYTES) then Some(BytesBound)
    else if !(1 <= limits.items <= MAX_CONTEXT_ITEMS) then Some(ItemsBound)
    else if !(1 <= limits.itemBytes <= MAX_CONTEXT_ITEM_BYTES) then Some(ItemBytesBound)
    else if exists i, j :: 0 <= i < j < |sources| && sources[i].path == sources[j].path then Some(PathsNotUnique)
    else None
  }

  /** Which requests are refused, by the first demand they miss: valid names, 256 KiB, 128 items,
      64 KiB for each item, and no path twice. */
  lemma RefusalExactly(rules: Rules, workspace: string, revision: string, limits: Limits, sources: seq<Source>)
    ensures var r := Refusal(rules, workspace, revision, limits, sources);
            var named := rules.workspace(workspace) && rules.revision(revision);
            var bounded := 1 <= limits.bytes <= 262144 && 1 <= limits.items <= 128 && 1 <= limits.itemBytes <= 65536;
            && (r == None <==> named && bounded && NoDuplicates(Paths(sources)))
            && (r == Some(WorkspaceInvalid) <==> !rules.workspace(workspace))
            && (r == Some(RevisionInvalid) <==> rules.workspace(workspace) && !rules.revision(revision))
            && (r == Some(BytesBound) <==> named && (limits.bytes < 1 || limits.bytes > 262144))
            && (r == Some(ItemsBound) <==> named && 1 <= limits.bytes <= 262144 && (limits.items < 1 || limits.items > 128))
            && (r == Some(PathsNotUnique) <==> named && bounded && !NoDuplicates(Paths(sources)))
  {
  }

  /** An excerpt ends as many lines after its first as it has line feeds. */
  lemma {:induction false} NewlinesExactly(s: string)
    ensures Newlines(s) == multiset(s)['\n']
  {
    if s != [] {
      NewlinesExactly(s[1..]);
      assert s == [s[0]] + s[1..];
    }
  }

  // ---------------------------------------------------------------- specification

  /** The bytes that an item may take: its own limit, or what earlier items left of the pack. */
  function Allowance(limits: Limits, before: seq<Item>): nat
    requires limits.itemBytes >= 0 && TotalBytes(before) <= limits.bytes
  {
    var room := limits.bytes - TotalBytes(before);
    if limits.itemBytes < room then limits.itemBytes else room
  }

  /** How a source fares after the items already in the pack: the longest prefix of its redacted
      text within both limits, unless it comes too late or nothing of it would be left. */
  function Fare(redact: string -> string, limits: Limits, source: Source, index: nat, before: seq<Item>): (r: Option<Item>)
    requires limits.itemBytes >= 0 && TotalBytes(before) <= limits.bytes
    ensures r.Some? ==> TotalBytes(before) + ByteLen(r.value.content) <= limits.bytes
  {
    var text := redact(source.content);
    var kept := LongestFit(text, Allowance(limits, before));
    if index >= limits.items || TotalBytes(before) == limits.bytes || (kept == [] && source.content != []) then None
    else Some(Item(source.path, kept, source.startLine, EndLine(source.startLine, kept), kept != text, Sha256(source.content)))
  }

  datatype Split = Split(items: seq<Item>, omitted: seq<string>)

  function Extended(split: Split, fare: Option<Item>, path: string): (r: Split) {
    if fare.Some? then Split(split.items + [fare.value], split.omitted)
    else Split(split.items, split.omitted + [path])
  }

  /** The items and the omitted paths of a pack, in the order of the sources. */
  function Splitting(redact: string -> string, limits: Limits, sources: seq<Source>): (r: Split)
    requires limits.bytes >= 0 && limits.itemBytes >= 0
    ensures TotalBytes(r.items) <= limits.bytes
    ensures |r.items| + |r.omitted| == |sources|
  {
    if sources == [] then Split([], [])
    else
      var n := |sources| - 1;
      var before := Splitting(redact, limits, sources[..n]);
      var fare := Fare(redact, limits, sources[n], n, before.items);
      ExtendedTotals(before, fare, sources[n].path);
      Extended(before, fare, sources[n].path)
  }

  predicate Cut(items: seq<Item>) {
    exists i :: 0 <= i < |items| && items[i].truncated
  }

  // ---------------------------------------------------------------- the loop

  /** The item of a source, if it gets one: the encoded text is truncated twice. */
  method Admit(redact: string -> string, limits: Limits, source: Source, index: nat, ghost before: seq<Item>, used: nat)
    returns (r: Option<Item>)
    requires limits.itemBytes >= 0 && used == TotalBytes(before) <= limits.bytes
    ensures r == Fare(redact, limits, source, index, before)
  {
    var room := limits.bytes - used;
    var redacted := redact(source.content);
    var (once, itemCut) := Truncate(redacted, limits.itemBytes);
    if index >= limits.items || room <= 0 {
      return None;
    }
    var (text, packCut) := Truncate(once, room);
    TruncateExact(redacted, limits.itemBytes);
    TruncateExact(once, room);
    FitTwice(redacted, limits.itemBytes, room);
    FitsWhole(redacted, limits.itemBytes);
    FitsWhole(once, room);
    if text == [] && source.content != [] {
      return None;
    }
    return Some(Item(source.path, text, source.startLine, EndLine(source.startLine, text), itemCut || packCut,
                     Sha256(source.content)));
  }

  method Assemble(redact: string -> string, limits: Limits, sources: seq<Source>)
    returns (items: seq<Item>, omitted: seq<string>, total: nat, truncated: bool)
    requires limits.bytes >= 0 && limits.itemBytes >= 0
    ensures Split(items, omitted) == Splitting(redact, limits, sources)
    ensures total == TotalBytes(items) && (truncated <==> omitted != [] || Cut(items))
  {
    items, omitted, total, truncated := [], [], 0, false;
    var index := 0;
    while index < |sources|
      invariant index <= |sources|
      invariant Split(items, omitted) == Splitting(redact, limits, sources[..index])
      invariant total == TotalBytes(items)
      invariant truncated <==> omitted != [] || Cut(items)
    {
      ghost var before := Split(items, omitted);
      var fare := Admit(redact, limits, sources[index], index, items, total);
      ExtendedTotals(before, fare, sources[index].path);
      if fare.None? {
        omitted := omitted + [sources[index].path];
        truncated := true;
      } else {
        items := items + [fare.value];
        total := total + ByteLen(fare.value.content);
        truncated := truncated || fare.value.truncated;
      }
      SplittingNext(redact, limits, sources, index, before, fare, Split(items, omitted));
      index := index + 1;
    }
    assert sources[..index] == sources;
  }

  method BuildContextPack(rules: Rules, workspace: string, revision: string, limits: Limits,
                          sources: seq<Source>, generatedAt: string) returns (r: Result<Pack, Error>)
    ensures var refusal := Refusal(rules, workspace, revision, limits, sources);
            if refusal.Some? then r == Err(refusal.value)
            else
              var split := Splitting(rules.redact, limits, sources);
              r == Ok(Pack(workspace, split.items, TotalBytes(split.items), split.omitted != [] || Cut(split.items),
                           split.omitted, revision, Fingerprint(workspace, revision, Files(sources)), generatedAt))
  {
    var refusal := Refusal(rules, workspace, revision, limits, sources);
    if refusal.Some? {
      return Err(refusal.value);
    }
    var items, omitted, total, truncated := Assemble(rules.redact, limits, sources);
    return Ok(Pack(workspace, items, total, truncated, omitted, revision,
                   Fingerprint(workspace, revision, Files(sources)), generatedAt));
  }

  lemma ExtendedTotals(split: Split, fare: Option<Item>, path: string)
    ensures var r := Extended(split, fare, path);
            && TotalBytes(r.items) == TotalBytes(split.items) + (if fare.Some? then ByteLen(fare.value.content) else 0)
            && (r.omitted != [] || Cut(r.items)
                <==> split.omitted != [] || Cut(split.items) || fare.None? || fare.value.truncated)
  {
    if fare.Some? {
      var all := split.items + [fare.value];
      assert all[..|split.items|] == split.items && all[|split.items|] == fare.value;
      assert forall i :: 0 <= i < |split.items| ==> all[i] == split.items[i];
    }
  }

  lemma SplittingNext(redact: string -> string, limits: Limits, sources: seq<Source>, k: nat,
                      before: Split, fare: Option<Item>, after: Split)
    requires limits.bytes >= 0 && limits.itemBytes >= 0 && k < |sources|
    requires before == Splitting(redact, limits, sources[..k])
    requires fare == Fare(redact, limits, sources[k], k, before.items)
    requires after == Extended(before, fare, sources[k].path)
    ensures after == Splitting(redact, limits, sources[..k + 1])
  {
    assert sources[..k + 1][..k] == sources[..k];
  }

  // ---------------------------------------------------------------- what a pack holds

  /** `kept` and `omitted` split `all` between them, each in its order. */
  ghost predicate Woven(all: seq<string>, kept: seq<string>, omitted: seq<string>) {
    if all == [] then kept == [] && omitted == []
    else
      var n := |all| - 1;
      || (kept != [] && kept[|kept| - 1] == all[n] && Woven(all[..n], kept[..|kept| - 1], omitted))
      || (omitted != [] && omitted[|omitted| - 1] == all[n] && Woven(all[..n], kept, omitted[..|omitted| - 1]))
  }

  function ItemPaths(items: seq<Item>): (r: seq<string>)
    ensures |r| == |items| && forall i :: 0 <= i < |r| ==> r[i] == items[i].path
  {
    seq(|items|, i requires 0 <= i < |items| => items[i].path)
  }

  lemma WovenNext(all: seq<string>, before: Split, fare: Option<Item>, after: Split)
    requires all != [] && (fare.Some? ==> fare.value.path == all[|all| - 1])
    requires Woven(all[..|all| - 1], ItemPaths(before.items), before.omitted)
    requires after == Extended(before, fare, all[|all| - 1])
    ensures Woven(all, ItemPaths(after.items), after.omitted)
  {
    if fare.Some? {
      var m := |before.items|;
      assert ItemPaths(after.items)[..m] == ItemPaths(before.items) && ItemPaths(after.items)[m] == all[|all| - 1];
    } else {
      assert after.omitted[..|before.omitted|] == before.omitted;
    }
  }

  /** The last turn of the loop, with what is needed of its outcome. */
  lemma LastTurn(redact: string -> string, limits: Limits, sources: seq<Source>) returns (before: Split, fare: Option<Item>)
    requires limits.bytes >= 0 && limits.itemBytes >= 0 && sources != []
    ensures var last := sources[|sources| - 1];
            && before == Splitting(redact, limits, sources[..|sources| - 1])
            && Splitting(redact, limits, sources) == Extended(before, fare, last.path)
            && (fare.Some? ==> fare.value.path == last.path)
            && (fare.Some? ==> (fare.value.truncated <==> fare.value.content != redact(last.content)))
  {
    var n := |sources| - 1;
    before := Splitting(redact, limits, sources[..n]);
    fare := Fare(redact, limits, sources[n], n, before.items);
  }

  /** Every source becomes an item or an omitted path, in order. */
  lemma {:induction false} SourcesWoven(redact: string -> string, limits: Limits, sources: seq<Source>,
                                        paths: seq<string>, r: Split)
    requires limits.bytes >= 0 && limits.itemBytes >= 0
    requires paths == Paths(sources) && r == Splitting(redact, limits, sources)
    ensures Woven(paths, ItemPaths(r.items), r.omitted)
    decreases |sources|
  {
    if sources != [] {
      var n := |sources| - 1;
      var before, fare := LastTurn(redact, limits, sources);
      assert paths[..n] == Paths(sources[..n]);
      SourcesWoven(redact, limits, sources[..n], paths[..n], before);
      WovenNext(paths, before, fare, r);
    }
  }

  lemma {:induction false} WovenMembers(all: seq<string>, kept: seq<string>, omitted: seq<string>)
    requires Woven(all, kept, omitted)
    ensures multiset(all) == multiset(kept) + multiset(omitted)
  {
    if all != [] {
      var n := |all| - 1;
      assert all == all[..n] + [all[n]];
      if kept != [] && kept[|kept| - 1] == all[n] && Woven(all[..n], kept[..|kept| - 1], omitted) {
        assert kept == kept[..|kept| - 1] + [all[n]];
        WovenMembers(all[..n], kept[..|kept| - 1], omitted);
      } else {
        assert omitted == omitted[..|omitted| - 1] + [all[n]];
        WovenMembers(all[..n], kept, omitted[..|omitted| - 1]);
      }
    }
  }

  /** With unique paths, no path is both packed and omitted, and none is lost or repeated. */
  lemma PathsConserved(redact: string -> string, limits: Limits, sources: seq<Source>)
    requires limits.bytes >= 0 && limits.itemBytes >= 0 && NoDuplicates(Paths(sources))
    ensures var r := Splitting(redact, limits, sources);
            && multiset(Paths(sources)) == multiset(ItemPaths(r.items) + r.omitted)
            && NoDuplicates(ItemPaths(r.items) + r.omitted)
  {
    var r := Splitting(redact, limits, sources);
    SourcesWoven(redact, limits, sources, Paths(sources), r);
    WovenMembers(Paths(sources), ItemPaths(r.items), r.omitted);
    NoDuplicatesPermute(Paths(sources), ItemPaths(r.items) + r.omitted);
  }

  /** The text of an item is the longest whole-character prefix of the redacted source within
      the item limit and what the earlier items left of the pack. */
  ghost predicate Longest(text: string, limit: nat, kept: string) {
    && kept <= text && ByteLen(kept) <= limit
    && forall k :: |kept| < k <= |text| ==> ByteLen(text[..k]) > limit
  }

  lemma LongestFitIsLongest(text: string, limit: nat)
    ensures Longest(text, limit, LongestFit(text, limit))
  {
    forall k | |LongestFit(text, limit)| < k <= |text| ensures ByteLen(text[..k]) > limit {
      if ByteLen(text[..k]) <= limit {
        LongestFitMaximal(text, limit, k);
      }
    }
  }

  /** What a packed item says about its source, given the items before it. */
  ghost predicate Excerpt(redact: string -> string, limits: Limits, source: Source, before: seq<Item>, item: Item)
    requires limits.itemBytes >= 0 && TotalBytes(before) <= limits.bytes
  {
    && item.path == source.path && item.startLine == source.startLine && item.contentHash == Sha256(source.content)
    && Longest(redact(source.content), Allowance(limits, before), item.content)
    && (item.truncated <==> item.content != redact(source.content))
    && (item.content == [] ==> source.content == [])
    && item.endLine == item.startLine + Newlines(item.content)
  }

  lemma FareIsExcerpt(redact: string -> string, limits: Limits, source: Source, index: nat, before: seq<Item>)
    requires limits.itemBytes >= 0 && TotalBytes(before) <= limits.bytes
    requires Fare(redact, limits, source, index, before).Some?
    ensures Excerpt(redact, limits, source, before, Fare(redact, limits, source, index, before).value)
  {
    LongestFitIsLongest(redact(source.content), Allowance(limits, before));
  }

  lemma TotalBytesStep(items: seq<Item>, j: nat, before: seq<Item>, after: seq<Item>)
    requires j < |items| && before == items[..j] && after == items[..j + 1]
    ensures TotalBytes(before) <= TotalBytes(after)
  {
    assert after[..|after| - 1] == before;
  }

  lemma {:induction false} TotalBytesPrefix(items: seq<Item>, j: nat)
    requires j <= |items|
    ensures TotalBytes(items[..j]) <= TotalBytes(items)
    decreases |items| - j
  {
    if j < |items| {
      TotalBytesPrefix(items, j + 1);
      TotalBytesStep(items, j, items[..j], items[..j + 1]);
    } else {
      assert items[..j] == items;
    }
  }

  /** Each item is the excerpt of a source among the first `limits.items`. */
  lemma {:induction false} ItemsAreExcerpts(redact: string -> string, limits: Limits, sources: seq<Source>, j: nat)
    requires limits.bytes >= 0 && limits.itemBytes >= 0
    requires j < |Splitting(redact, limits, sources).items|
    ensures var items := Splitting(redact, limits, sources).items;
            && TotalBytes(items[..j]) <= limits.bytes
            && exists i :: 0 <= i < |sources| && i < limits.items && Excerpt(redact, limits, sources[i], items[..j], items[j])
  {
    var n := |sources| - 1;
    var before, items := Splitting(redact, limits, sources[..n]), Splitting(redact, limits, sources).items;
    TotalBytesPrefix(items, j);
    if j < |before.items| {
      ItemsAreExcerpts(redact, limits, sources[..n], j);
      var i :| 0 <= i < n && i < limits.items && Excerpt(redact, limits, sources[..n][i], before.items[..j], before.items[j]);
      assert items[..j] == before.items[..j] && sources[i] == sources[..n][i];
    } else {
      FareIsExcerpt(redact, limits, sources[n], n, before.items);
      assert items[..j] == before.items;
    }
  }

  lemma {:induction false} SplittingPrefix(redact: string -> string, limits: Limits, sources: seq<Source>, k: nat)
    requires limits.bytes >= 0 && limits.itemBytes >= 0 && k <= |sources|
    ensures Splitting(redact, limits, sources[..k]).items <= Splitting(redact, limits, sources).items
    ensures Splitting(redact, limits, sources[..k]).omitted <= Splitting(redact, limits, sources).omitted
  {
    var n := |sources| - 1;
    if k == |sources| {
      assert sources[..k] == sources;
    } else {
      assert sources[..n][..k] == sources[..k];
      SplittingPrefix(redact, limits, sources[..n], k);
      var before, fare := LastTurn(redact, limits, sources);
      assert before.items <= Splitting(redact, limits, sources).items;
    }
  }

  lemma SplitApart(kept: seq<string>, omitted: seq<string>, i: nat, path: string)
    requires NoDuplicates(kept + omitted) && i < |kept| && kept[i] == path
    ensures path !in omitted
  {
    forall j | 0 <= j < |omitted| ensures omitted[j] != path {
      assert (kept + omitted)[i] == path && (kept + omitted)[|kept| + j] == omitted[j];
    }
  }

  lemma PassedOver(before: Split, path: string, next: Split, r: Split)
    requires next == Extended(before, None, path) && next.omitted <= r.omitted
    ensures path in r.omitted
  {
    assert next.omitted[|before.omitted|] == path;
    assert r.omitted[|before.omitted|] == path;
  }

  lemma Packed(before: Split, item: Item, next: Split, r: Split)
    requires next == Extended(before, Some(item), item.path) && next.items <= r.items
    requires NoDuplicates(ItemPaths(r.items) + r.omitted)
    ensures item.path !in r.omitted
  {
    assert next.items[|before.items|] == item;
    SplitApart(ItemPaths(r.items), r.omitted, |before.items|, item.path);
  }

  /** A source is omitted exactly when it comes too late, the pack is full, or not even its
      first character fits (or nothing is left by redaction) although the source is not empty. */
  lemma OmittedExactly(redact: string -> string, limits: Limits, sources: seq<Source>, k: nat)
    requires limits.bytes >= 0 && limits.itemBytes >= 0 && k < |sources| && NoDuplicates(Paths(sources))
    ensures var before := Splitting(redact, limits, sources[..k]).items;
            sources[k].path in Splitting(redact, limits, sources).omitted
            <==> || k >= limits.items || TotalBytes(before) == limits.bytes
                 || (sources[k].content != [] && LongestFit(redact(sources[k].content), Allowance(limits, before)) == [])
  {
    var before, path := Splitting(redact, limits, sources[..k]), sources[k].path;
    var fare := Fare(redact, limits, sources[k], k, before.items);
    var r, next := Splitting(redact, limits, sources), Extended(before, fare, path);
    SplittingNext(redact, limits, sources, k, before, fare, next);
    SplittingPrefix(redact, limits, sources, k + 1);
    PathsConserved(redact, limits, sources);
    if fare.None? {
      PassedOver(before, path, next, r);
    } else {
      Packed(before, fare.value, next, r);
    }
  }

  ghost predicate Unshortened(redact: string -> string, sources: seq<Source>, items: seq<Item>) {
    && |items| == |sources|
    && forall i :: 0 <= i < |sources| ==> items[i].path == sources[i].path && items[i].content == redact(sources[i].content)
  }

  lemma UnshortenedNext(redact: string -> string, sources: seq<Source>, before: Split, fare: Option<Item>, after: Split)
    requires sources != [] && |before.items| <= |sources| - 1
    requires after == Extended(before, fare, sources[|sources| - 1].path)
    requires fare.Some? ==> fare.value.path == sources[|sources| - 1].path
    ensures Unshortened(redact, sources, after.items)
            <==> && Unshortened(redact, sources[..|sources| - 1], before.items)
                 && fare.Some? && fare.value.content == redact(sources[|sources| - 1].content)
  {
    var n := |sources| - 1;
    if fare.Some? && |before.items| == n {
      assert after.items[n] == fare.value;
      assert forall i :: 0 <= i < n ==> after.items[i] == before.items[i] && sources[..n][i] == sources[i];
    }
  }

  /** A pack is marked whole exactly when every source is in it, in order and unshortened. */
  lemma {:induction false} WholeExactly(redact: string -> string, limits: Limits, sources: seq<Source>)
    requires limits.bytes >= 0 && limits.itemBytes >= 0
    ensures var r := Splitting(redact, limits, sources);
            !(r.omitted != [] || Cut(r.items)) <==> Unshortened(redact, sources, r.items)
  {
    if sources == [] {
      assert Splitting(redact, limits, sources) == Split([], []);
    } else {
      var n := |sources| - 1;
      WholeExactly(redact, limits, sources[..n]);
      var before, fare := LastTurn(redact, limits, sources);
      ExtendedTotals(before, fare, sources[n].path);
      UnshortenedNext(redact, sources, before, fare, Splitting(redact, limits, sources));
    }
  }
}
