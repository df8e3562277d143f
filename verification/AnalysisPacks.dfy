/** `_fit`: an analysis pack is shrunk in place until its JSON fits the output bound. */
module AnalysisPacks {
  import opened Wrappers
  import opened OrderedDict
  import opened Utf8

  /** The measured part of a pack that shrinking may change; failures and metadata values
      as their JSON texts. */
  datatype Payload = Payload(diffs: Dict<string>, failures: seq<string>, metadata: Dict<string>, truncated: bool)

  /** The number of JSON bytes of a payload: any measure will do. */
  type Measure = Payload -> nat

  const HEADROOM := 64

  ghost predicate AllEmpty(diffs: Dict<string>) {
    forall i :: 0 <= i < |diffs| ==> diffs[i].1 == ""
  }

  /** One more than the position of the last diff with text; 0 when there is none. */
  function LastText(diffs: Dict<string>): (r: nat)
    ensures r <= |diffs|
    ensures r > 0 ==> diffs[r - 1].1 != ""
    ensures forall i :: r <= i < |diffs| ==> diffs[i].1 == ""
  {
    if diffs == [] then 0
    else if diffs[|diffs| - 1].1 != "" then |diffs|
    else LastText(diffs[..|diffs| - 1])
  }

  /** The bytes that a text may keep when the pack is `excess` bytes too large. */
  function Target(text: string, excess: nat): (r: nat) {
    if ByteLen(text) > excess + HEADROOM then ByteLen(text) - excess - HEADROOM else 0
  }

  function CutDiff(diffs: Dict<string>, i: nat, excess: nat): (r: Dict<string>)
    requires i < |diffs|
  {
    diffs[i := (diffs[i].0, LongestFit(diffs[i].1, Target(diffs[i].1, excess)))]
  }

  /** The next smaller payload: cut the last diff with text, else drop the last failure,
      else empty the metadata. */
  function Shrunk(p: Payload, excess: nat): (r: Option<Payload>) {
    var i := LastText(p.diffs);
    if i > 0 then Some(p.(diffs := CutDiff(p.diffs, i - 1, excess), truncated := true))
    else if p.failures != [] then Some(p.(failures := p.failures[..|p.failures| - 1], truncated := true))
    else if p.metadata != [] then Some(p.(metadata := [], truncated := true))
    else None
  }

  function DiffBytes(diffs: Dict<string>): nat {
    if diffs == [] then 0 else ByteLen(diffs[0].1) + DiffBytes(diffs[1..])
  }

  /** What every step of the loop makes smaller. */
  function Weight(p: Payload): nat {
    DiffBytes(p.diffs) + |p.failures| + |p.metadata|
  }

  lemma {:induction false} DiffBytesUpdate(diffs: Dict<string>, i: nat, x: (string, string))
    requires i < |diffs|
    ensures DiffBytes(diffs[i := x]) == DiffBytes(diffs) - ByteLen(diffs[i].1) + ByteLen(x.1)
  {
    if i == 0 {
      assert diffs[i := x][1..] == diffs[1..];
    } else {
      assert diffs[i := x][1..] == diffs[1..][i - 1 := x];
      DiffBytesUpdate(diffs[1..], i - 1, x);
    }
  }

  lemma ShrunkLighter(p: Payload, excess: nat)
    requires excess > 0 && Shrunk(p, excess).Some?
    ensures Weight(Shrunk(p, excess).value) < Weight(p)
  {
    var i := LastText(p.diffs);
    if i > 0 {
      var text := p.diffs[i - 1].1;
      assert ByteLen(text) > 0;
      DiffBytesUpdate(p.diffs, i - 1, (p.diffs[i - 1].0, LongestFit(text, Target(text, excess))));
    }
  }

  /** By how many bytes a payload is too large. */
  function Excess(size: Measure, p: Payload, maximum: nat): (r: nat)
    ensures size(p) > maximum ==> r > 0
  {
    if size(p) > maximum then size(p) - maximum else 0
  }

  /** The end of the loop: the payload, and whether it fits. */
  function Fitted(size: Measure, p: Payload, maximum: nat): (r: (Payload, bool))
    ensures r.1 <==> size(r.0) <= maximum
    decreases Weight(p)
  {
    if size(p) <= maximum then (p, true)
    else
      match Shrunk(p, Excess(size, p, maximum))
      case None => (p, false)
      case Some(next) =>
        ShrunkLighter(p, Excess(size, p, maximum));
        Fitted(size, next, maximum)
  }

  // ---------------------------------------------------------------- how much one turn takes

  lemma {:induction false} FitFills(s: string, limit: nat)
    ensures LongestFit(s, limit) == s || ByteLen(LongestFit(s, limit)) + 3 >= limit
  {
    if s != [] && |EncodeChar(s[0])| <= limit {
      var rest := LongestFit(s[1..], limit - |EncodeChar(s[0])|);
      FitFills(s[1..], limit - |EncodeChar(s[0])|);
      assert s == [s[0]] + s[1..];
      assert ([s[0]] + rest)[1..] == rest;
    }
  }

  /** One turn on a diff takes the excess and 64 bytes, and at most three more for a broken
      character; a diff that has no more than that is emptied. */
  lemma TurnTakes(size: Measure, p: Payload, maximum: nat)
    requires size(p) > maximum && LastText(p.diffs) > 0
    ensures var i := LastText(p.diffs) - 1;
            var surplus := size(p) - maximum + 64;
            var r := Shrunk(p, Excess(size, p, maximum));
            && r.Some? && |r.value.diffs| == |p.diffs|
            && var text, kept := p.diffs[i].1, r.value.diffs[i].1;
            && kept <= text
            && (ByteLen(text) <= surplus ==> kept == "")
            && (ByteLen(text) > surplus ==> ByteLen(text) - surplus - 3 <= ByteLen(kept) <= ByteLen(text) - surplus)
            && r.value.failures == p.failures && r.value.metadata == p.metadata
            && (forall j :: 0 <= j < |p.diffs| && j != i ==> r.value.diffs[j] == p.diffs[j])
  {
    var text := p.diffs[LastText(p.diffs) - 1].1;
    FitFills(text, Target(text, Excess(size, p, maximum)));
  }

  // ---------------------------------------------------------------- what shrinking keeps

  /** Diffs before `k` are whole, later ones empty, and the one at `k` is a prefix. */
  ghost predicate CutAt(original: Dict<string>, diffs: Dict<string>, k: nat) {
    && k <= |diffs| == |original|
    && (forall i :: 0 <= i < |diffs| ==> diffs[i].0 == original[i].0)
    && (forall i :: 0 <= i < k ==> diffs[i] == original[i])
    && (forall i :: k < i < |diffs| ==> diffs[i].1 == "")
    && (k < |diffs| ==> diffs[k].1 <= original[k].1)
  }

  ghost predicate Shape(original: Payload, p: Payload) {
    && (exists k :: CutAt(original.diffs, p.diffs, k))
    && p.failures <= original.failures
    && (p.failures != original.failures ==> AllEmpty(p.diffs))
    && (p.metadata != original.metadata ==> p.metadata == [] && p.failures == [] && AllEmpty(p.diffs))
    && (p != original ==> p.truncated && Weight(p) < Weight(original))
  }

  lemma CutFurther(original: Dict<string>, diffs: Dict<string>, k: nat, i: nat, text: string)
    requires CutAt(original, diffs, k) && i < |diffs| && diffs[i].1 != "" && text <= diffs[i].1
    requires forall j :: i < j < |diffs| ==> diffs[j].1 == ""
    ensures CutAt(original, diffs[i := (diffs[i].0, text)], i)
  {
    assert i <= k;
  }

  lemma DiffsShape(original: Payload, p: Payload, i: nat, excess: nat)
    requires Shape(original, p) && i + 1 == LastText(p.diffs)
    ensures exists k :: CutAt(original.diffs, CutDiff(p.diffs, i, excess), k)
    ensures p.failures == original.failures && p.metadata == original.metadata
  {
    var k :| CutAt(original.diffs, p.diffs, k);
    CutFurther(original.diffs, p.diffs, k, i, LongestFit(p.diffs[i].1, Target(p.diffs[i].1, excess)));
    assert CutAt(original.diffs, CutDiff(p.diffs, i, excess), i);
    assert !AllEmpty(p.diffs);
  }

  lemma ShrunkShape(original: Payload, p: Payload, excess: nat, next: Payload)
    requires Shape(original, p) && excess > 0 && Shrunk(p, excess) == Some(next)
    ensures Shape(original, next) && Weight(next) < Weight(p)
  {
    ShrunkLighter(p, excess);
    var i := LastText(p.diffs);
    if i > 0 {
      DiffsShape(original, p, i - 1, excess);
    } else {
      assert AllEmpty(p.diffs);
    }
  }

  lemma {:induction false} FittedShapeFrom(size: Measure, original: Payload, p: Payload, maximum: nat, r: Payload, fits: bool)
    requires Shape(original, p) && (r, fits) == Fitted(size, p, maximum)
    ensures Shape(original, r) && (!fits ==> AllEmpty(r.diffs) && r.failures == [] && r.metadata == [])
    decreases Weight(p)
  {
    if size(p) > maximum {
      var next := Shrunk(p, Excess(size, p, maximum));
      if next.Some? {
        ShrunkShape(original, p, Excess(size, p, maximum), next.value);
        FittedShapeFrom(size, original, next.value, maximum, r, fits);
      } else {
        assert r == p;
      }
    }
  }

  /** For any measure: what is lost is lost from the end, diffs first, then failures, then the
      metadata; it does not fit only when all three are empty. */
  lemma FittedShape(size: Measure, p: Payload, maximum: nat)
    ensures var (r, fits) := Fitted(size, p, maximum);
            && Shape(p, r)
            && (fits <==> size(r) <= maximum)
            && (!fits ==> AllEmpty(r.diffs) && r.failures == [] && r.metadata == [])
            && (size(p) <= maximum ==> r == p)
  {
    assert CutAt(p.diffs, p.diffs, |p.diffs|);
    FittedShapeFrom(size, p, p, maximum, Fitted(size, p, maximum).0, Fitted(size, p, maximum).1);
  }

  /** On a new pack the flag is set exactly when content was lost. */
  lemma TruncatedExact(size: Measure, p: Payload, maximum: nat)
    requires !p.truncated
    ensures var r := Fitted(size, p, maximum).0;
            r.truncated <==> r.diffs != p.diffs || r.failures != p.failures || r.metadata != p.metadata
  {
    FittedShape(size, p, maximum);
  }

  // ---------------------------------------------------------------- the loop

  class AnalysisPack {
    var diffs: Dict<string>
    var failures: seq<string>
    var metadata: Dict<string>
    var truncated: bool
    var usedBytes: nat

    function State(): Payload
      reads this
    {
      Payload(diffs, failures, metadata, truncated)
    }

    constructor (diffs: Dict<string>, failures: seq<string>, metadata: Dict<string>)
      ensures State() == Payload(diffs, failures, metadata, false) && usedBytes == 0
    {
      this.diffs, this.failures, this.metadata := diffs, failures, metadata;
      truncated, usedBytes := false, 0;
    }

    /** The text that a diff keeps: its first bytes, decoded without the broken tail. */
    static method Keep(text: string, excess: nat) returns (kept: string)
      ensures kept == LongestFit(text, Target(text, excess))
    {
      var encoded := Encode(text);
      var target := |encoded| - excess - HEADROOM;
      CutDecodes(text, Target(text, excess));
      kept := if target <= 0 then "" else DecodeIgnore(encoded[..target]);
    }

    /** Cut the last diff that still has text. */
    method CutLastDiff(excess: nat) returns (changed: bool)
      modifies this`diffs
      ensures changed <==> LastText(old(diffs)) > 0
      ensures diffs == if changed then CutDiff(old(diffs), LastText(old(diffs)) - 1, excess) else old(diffs)
    {
      var i := |diffs|;
      assert diffs[..i] == diffs;
      while i > 0 && diffs[i - 1].1 == ""
        invariant i <= |diffs| && LastText(diffs[..i]) == LastText(diffs)
      {
        assert diffs[..i][..i - 1] == diffs[..i - 1];
        i := i - 1;
      }
      if i == 0 {
        return false;
      }
      assert LastText(diffs) == i;
      var kept := Keep(diffs[i - 1].1, excess);
      diffs := diffs[i - 1 := (diffs[i - 1].0, kept)];
      return true;
    }

    /** One turn of the loop, on a pack that is too large. */
    method Shrink(excess: nat) returns (changed: bool)
      modifies this`diffs, this`failures, this`metadata, this`truncated
      ensures changed <==> Shrunk(old(State()), excess).Some?
      ensures State() == if changed then Shrunk(old(State()), excess).value else old(State())
    {
      changed := CutLastDiff(excess);
      if changed {
        truncated := true;
      } else if failures != [] {
        failures := failures[..|failures| - 1];
        changed, truncated := true, true;
      } else if metadata != [] {
        metadata := [];
        changed, truncated := true, true;
      }
    }

    method Fit(size: Measure, maximum: nat) returns (fits: bool)
      modifies this
      ensures (State(), fits) == Fitted(size, old(State()), maximum)
      ensures usedBytes == if fits then size(State()) else old(usedBytes)
    {
      while size(State()) > maximum
        invariant usedBytes == old(usedBytes)
        invariant Fitted(size, State(), maximum) == Fitted(size, old(State()), maximum)
        decreases Weight(State())
      {
        ghost var p := State();
        var changed := Shrink(Excess(size, State(), maximum));
        FittedNext(size, p, maximum, changed, State());
        if !changed {
          return false;
        }
      }
      usedBytes := size(State());
      return true;
    }
  }

  lemma FittedNext(size: Measure, p: Payload, maximum: nat, changed: bool, next: Payload)
    requires size(p) > maximum
    requires changed <==> Shrunk(p, Excess(size, p, maximum)).Some?
    requires next == if changed then Shrunk(p, Excess(size, p, maximum)).value else p
    ensures if changed then Fitted(size, p, maximum) == Fitted(size, next, maximum) && Weight(next) < Weight(p)
            else Fitted(size, p, maximum) == (next, false)
  {
    if changed {
      ShrunkLighter(p, Excess(size, p, maximum));
    }
  }
}
