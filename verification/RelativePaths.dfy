/** `_normalize_relative_path` of the candidate request, with the path arithmetic it relies on. */
module RelativePaths {
  import opened Utf8

  const MAX_PATH_BYTES := 512

  /** The slash-separated components, empty ones included. */
  function Split(s: string): (r: seq<string>)
    ensures r != [] && forall i :: 0 <= i < |r| ==> '/' !in r[i]
  {
    if s == [] then [""]
    else
      var rest := Split(s[1..]);
      if s[0] == '/' then [""] + rest else [[s[0]] + rest[0]] + rest[1..]
  }

  function Join(parts: seq<string>): (r: string) {
    if parts == [] then ""
    else if |parts| == 1 then parts[0]
    else parts[0] + "/" + Join(parts[1..])
  }

  /** The parts of a relative `PurePosixPath`: empty and "." components disappear. */
  function Parts(components: seq<string>): (r: seq<string>)
    ensures |r| <= |components|
    ensures forall p :: p in r <==> p in components && p != "" && p != "."
  {
    if components == [] then []
    else
      assert components == [components[0]] + components[1..];
      (if components[0] == "" || components[0] == "." then [] else [components[0]]) + Parts(components[1..])
  }

  /** `str` of a relative `PurePosixPath`. */
  function PathText(value: string): string {
    var parts := Parts(Split(value));
    if parts == [] then "." else Join(parts)
  }

  predicate SafePath(value: string) {
    && value != "" && ByteLen(value) <= MAX_PATH_BYTES
    && '\0' !in value && '\\' !in value && value[0] != '/' && value[0] != '~'
    && PathText(value) == value
    && forall p :: p in Parts(Split(value)) ==> p != ".."
  }

  lemma {:induction false} JoinSplit(s: string)
    ensures Join(Split(s)) == s
  {
    if s != [] {
      JoinSplit(s[1..]);
      var rest := Split(s[1..]);
      if s[0] == '/' {
        assert ([""] + rest)[1..] == rest;
      } else if |rest| > 1 {
        assert ([[s[0]] + rest[0]] + rest[1..])[1..] == rest[1..];
        assert [s[0]] + rest[0] + "/" + Join(rest[1..]) == [s[0]] + (rest[0] + "/" + Join(rest[1..]));
      }
    }
  }

  lemma {:induction false} PartsAll(components: seq<string>)
    requires forall i :: 0 <= i < |components| ==> components[i] != "" && components[i] != "."
    ensures Parts(components) == components
  {
    if components != [] {
      assert components == [components[0]] + components[1..];
      PartsAll(components[1..]);
    }
  }

  /** The text of fewer parts is shorter. */
  function Size(parts: seq<string>): nat {
    if parts == [] then 0 else |parts[0]| + 1 + Size(parts[1..])
  }

  lemma {:induction false} JoinSize(parts: seq<string>)
    requires parts != []
    ensures |Join(parts)| + 1 == Size(parts)
  {
    if |parts| > 1 {
      JoinSize(parts[1..]);
    }
  }

  lemma {:induction false} PartsSize(components: seq<string>)
    ensures Size(Parts(components)) <= Size(components)
    ensures Parts(components) != components ==> Size(Parts(components)) < Size(components)
  {
    if components != [] {
      PartsSize(components[1..]);
      assert components == [components[0]] + components[1..];
      var rest := Parts(components[1..]);
      if components[0] != "" && components[0] != "." {
        assert ([components[0]] + rest)[1..] == rest;
      } else {
        assert Parts(components) == [] + rest == rest;
      }
    }
  }

  ghost predicate Real(components: seq<string>) {
    forall i :: 0 <= i < |components| ==> components[i] != "" && components[i] != "."
  }

  lemma DotHasNoParts()
    ensures Parts(Split(".")) == []
  {
    assert "."[1..] == [] && ['.'] + "" == ".";
    assert Split(".") == ["."];
    assert Parts(["."]) == [] + Parts([]);
  }

  lemma RealExactly(components: seq<string>)
    ensures Parts(components) == components <==> Real(components)
  {
    if Real(components) {
      PartsAll(components);
    }
    if Parts(components) == components {
      forall i | 0 <= i < |components| ensures components[i] != "" && components[i] != "." {
        assert components[i] in Parts(components);
      }
    }
  }

  /** `str(PurePosixPath(value)) == value` holds of "." and of texts with real components only. */
  lemma PathTextExact(value: string)
    ensures PathText(value) == value <==> value == "." || Real(Split(value))
  {
    var components := Split(value);
    var parts := Parts(components);
    JoinSplit(value);
    JoinSize(components);
    PartsSize(components);
    RealExactly(components);
    DotHasNoParts();
    if parts != components && parts != [] {
      JoinSize(parts);
    }
  }

  /** Which paths are accepted: those whose components are all real names, and ".", which has none. */
  lemma SafePathExact(value: string)
    ensures SafePath(value)
            <==> && value != "" && ByteLen(value) <= MAX_PATH_BYTES
                 && '\0' !in value && '\\' !in value && value[0] != '/' && value[0] != '~'
                 && (value == "." || (Real(Split(value)) && ".." !in Split(value)))
  {
    PathTextExact(value);
    RealExactly(Split(value));
    DotHasNoParts();
  }
}
