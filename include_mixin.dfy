/**
 * `Mixins::Include`: the flat formatter behind `add_includes`. Each comma field of the
 * `include` parameter is stripped and turned into a symbol (`a`) or a chain of one-pair
 * hashes (`a.b.c` is `{a: {b: :c}}`); the list goes to a single `includes` call.
 */
module IncludeMixin {
  import opened Wrappers
  import opened Text
  import opened Relation
  import IncludeParam

  /**
   * `formatted_includes_relationship(relationship)`: `split(".", 2)`; no dot gives the
   * symbol, a dot gives `{parent => format(rest)}`. An empty string splits into no parts
   * at all, so `nil.to_sym` raises.
   */
  function FormatRelationship(relationship: string): (r: Result<IncludeSpec>)
    ensures r.Ok? && '.' !in relationship ==> r.value == IncludeName(relationship)
    ensures r.Ok? ==> r.value.IncludeName? || r.value.IncludeHash?
    decreases |relationship|
  {
    var parts := SplitOnce(relationship, '.');
    if parts == [] then Err(NoMethodError("nil", "to_sym"))
    else if |parts| == 1 then Ok(IncludeName(parts[0]))
    else
      var child :- FormatRelationship(parts[1]);
      Ok(IncludeHash(parts[0], child))
  }

  /** The keys along a chain of one-pair hashes, down to the final symbol. */
  function ChainKeys(spec: IncludeSpec): seq<string>
    decreases spec
  {
    match spec
    case IncludeName(name) => [name]
    case IncludeHash(key, value) => [key] + ChainKeys(value)
    case IncludeHashList(key, _) => [key]
  }

  /**
   * A relationship formats exactly when it is not empty and does not end with a dot (an
   * empty segment elsewhere becomes the empty symbol), and then the chain's keys are its
   * dot-separated segments, white space included: nothing inside is stripped.
   */
  lemma {:induction false} FormatRelationshipSegments(relationship: string)
    ensures FormatRelationship(relationship).Ok? <==>
      relationship != [] && relationship[|relationship| - 1] != '.'
    ensures FormatRelationship(relationship).Ok? ==>
      ChainKeys(FormatRelationship(relationship).value) == SplitAll(relationship, '.')
      && Join(ChainKeys(FormatRelationship(relationship).value), '.') == relationship
  {
    FormatRelationshipOkExactly(relationship);
    if FormatRelationship(relationship).Ok? {
      FormatRelationshipKeys(relationship);
      JoinSplitAll(relationship, '.');
    }
  }

  lemma {:induction false} FormatRelationshipOkExactly(relationship: string)
    ensures FormatRelationship(relationship).Ok? <==>
      relationship != [] && relationship[|relationship| - 1] != '.'
    decreases |relationship|
  {
    var parts := SplitOnce(relationship, '.');
    if |parts| == 2 {
      FormatRelationshipOkExactly(parts[1]);
      if parts[1] != [] {
        assert relationship[|relationship| - 1] == parts[1][|parts[1]| - 1];
      }
    }
  }

  lemma {:induction false} FormatRelationshipKeys(relationship: string)
    requires FormatRelationship(relationship).Ok?
    ensures ChainKeys(FormatRelationship(relationship).value) == SplitAll(relationship, '.')
    decreases |relationship|
  {
    var parts := SplitOnce(relationship, '.');
    if |parts| == 1 {
      assert SplitAll(relationship, '.') == [relationship];
    } else {
      var i := IndexOf(relationship, '.').value;
      assert parts == [relationship[..i], relationship[i + 1..]];
      assert SplitAll(relationship, '.') == [parts[0]] + SplitAll(parts[1], '.');
      FormatRelationshipKeys(parts[1]);
    }
  }

  /** `map(&:strip)`. */
  function StripAll(fields: seq<string>): (r: seq<string>)
    ensures |r| == |fields| && forall i :: 0 <= i < |fields| ==> r[i] == Strip(fields[i])
  {
    seq(|fields|, i requires 0 <= i < |fields| => Strip(fields[i]))
  }

  /** `map(&method(:formatted_includes_relationship))`: the first token that raises stops the map. */
  function FormatAll(tokens: seq<string>): (r: Result<seq<IncludeSpec>>)
    ensures r.Ok? <==> forall i :: 0 <= i < |tokens| ==> FormatRelationship(tokens[i]).Ok?
    ensures r.Ok? ==> |r.value| == |tokens|
    ensures r.Ok? ==> forall i :: 0 <= i < |tokens| ==> FormatRelationship(tokens[i]) == Ok(r.value[i])
    decreases |tokens|
  {
    if tokens == [] then Ok([])
    else
      assert forall i :: 1 <= i < |tokens| ==> tokens[i] == tokens[1..][i - 1];
      var head :- FormatRelationship(tokens[0]);
      var rest :- FormatAll(tokens[1..]);
      Ok([head] + rest)
  }

  /**
   * `formatted_include_params(include_params)`: nil gives `[]`; otherwise one entry per
   * comma field, in field order, each the format of the field stripped at its ends only.
   * It raises exactly when some stripped field does not format.
   */
  function FormattedIncludeParams(includeParams: Option<string>): (r: Result<seq<IncludeSpec>>)
    ensures includeParams.None? ==> r == Ok([])
    ensures includeParams.Some? ==> var fields := RubySplit(includeParams.value, ',');
      r.Ok? <==> forall i :: 0 <= i < |fields| ==> FormatRelationship(Strip(fields[i])).Ok?
    ensures includeParams.Some? && r.Ok? ==> var fields := RubySplit(includeParams.value, ',');
      |r.value| == |fields|
      && forall i :: 0 <= i < |fields| ==> FormatRelationship(Strip(fields[i])) == Ok(r.value[i])
  {
    match includeParams
    case None => Ok([])
    case Some(s) =>
      FormatStripped(RubySplit(s, ','));
      FormatAll(StripAll(RubySplit(s, ',')))
  }

  /** `map(&:strip).map(&method(:formatted_includes_relationship))`, entry by entry. */
  lemma FormatStripped(fields: seq<string>)
    ensures FormatAll(StripAll(fields)).Ok? <==> forall i :: 0 <= i < |fields| ==> FormatRelationship(Strip(fields[i])).Ok?
    ensures FormatAll(StripAll(fields)).Ok? ==>
      |FormatAll(StripAll(fields)).value| == |fields|
      && forall i :: 0 <= i < |fields| ==> FormatRelationship(Strip(fields[i])) == Ok(FormatAll(StripAll(fields)).value[i])
  {
    var stripped := StripAll(fields);
    assert forall i :: 0 <= i < |fields| ==> stripped[i] == Strip(fields[i]);
  }

  /** `add_includes(collection, include_params)`: exactly one `includes` call with the formatted list. */
  function AddIncludes(c: Collection, includeParams: Option<string>): (r: Result<Collection>)
    ensures r.Ok? <==> FormattedIncludeParams(includeParams).Ok?
    ensures r.Ok? ==> r.value == c.Then(Includes(FormattedIncludeParams(includeParams).value))
  {
    var specs :- FormattedIncludeParams(includeParams);
    Ok(c.Then(Includes(specs)))
  }

  /** Without an include parameter, `includes([])` is still called once. */
  lemma AddIncludesWithoutParam(c: Collection)
    ensures AddIncludes(c, None) == Ok(Collection(c.source, c.ops + [Includes([])]))
  {
  }

  /**
   * Fields are neither merged nor reordered: `a.b,a.c` gives two entries, `{a: :b}` then
   * `{a: :c}`, where the include tree would merge them into one.
   */
  lemma NoMerging(a: string, b: string, c: string)
    requires a != [] && b != [] && c != []
    requires '.' !in a && '.' !in b && '.' !in c && ',' !in a && ',' !in b && ',' !in c
    requires Strip(a) == a && Strip(b) == b && Strip(c) == c
    ensures FormattedIncludeParams(Some(a + "." + b + "," + a + "." + c))
      == Ok([IncludeHash(a, IncludeName(b)), IncludeHash(a, IncludeName(c))])
  {
    var ab := a + "." + b;
    var ac := a + "." + c;
    assert a + "." + b + "," + a + "." + c == ab + "," + ac;
    DotField(a, b);
    DotField(a, c);
    PairOfFields(ab, ac);
  }

  /** `a.b` with clean segments is a clean field that formats to `{a: :b}`. */
  lemma DotField(a: string, b: string)
    requires a != [] && b != [] && '.' !in a && '.' !in b && ',' !in a && ',' !in b
    requires Strip(a) == a && Strip(b) == b
    ensures var ab := a + "." + b;
      ab != [] && ',' !in ab && Strip(ab) == ab
      && FormatRelationship(ab) == Ok(IncludeHash(a, IncludeName(b)))
  {
    StripAroundDot(a, b);
    DotSplit(a, b);
  }

  /** Two clean fields that format are formatted one by one, in order. */
  lemma PairOfFields(x: string, y: string)
    requires x != [] && y != [] && ',' !in x && ',' !in y && Strip(x) == x && Strip(y) == y
    requires FormatRelationship(x).Ok? && FormatRelationship(y).Ok?
    ensures FormattedIncludeParams(Some(x + "," + y)) == Ok([FormatRelationship(x).value, FormatRelationship(y).value])
  {
    TwoFields(x, y);
    StripAllFixed([x, y]);
    FormattedPair(x + "," + y, x, y);
  }

  lemma StripAllFixed(fields: seq<string>)
    requires forall i :: 0 <= i < |fields| ==> Strip(fields[i]) == fields[i]
    ensures StripAll(fields) == fields
  {
  }

  lemma FormattedPair(s: string, x: string, y: string)
    requires StripAll(RubySplit(s, ',')) == [x, y]
    requires FormatRelationship(x).Ok? && FormatRelationship(y).Ok?
    ensures FormattedIncludeParams(Some(s)) == Ok([FormatRelationship(x).value, FormatRelationship(y).value])
  {
    FormatTwo(x, y);
  }

  lemma TwoFields(x: string, y: string)
    requires x != [] && y != [] && ',' !in x && ',' !in y
    ensures RubySplit(x + "," + y, ',') == [x, y]
  {
    var s := x + "," + y;
    assert s == x + [','] + y;
    SplitAllAppend(x, ',', y);
    assert SplitAll(x, ',') == [x];
    RubySplitKeepsFields(s, ',');
  }

  lemma FormatTwo(x: string, y: string)
    requires FormatRelationship(x).Ok? && FormatRelationship(y).Ok?
    ensures FormatAll([x, y]) == Ok([FormatRelationship(x).value, FormatRelationship(y).value])
  {
    var r := FormatAll([x, y]);
    assert [x, y][0] == x && [x, y][1] == y;
    assert r.Ok?;
    assert |r.value| == 2;
    assert r.value[0] == FormatRelationship(x).value;
    assert r.value[1] == FormatRelationship(y).value;
    assert r.value == [r.value[0], r.value[1]];
  }

  lemma DotSplit(a: string, b: string)
    requires a != [] && b != [] && '.' !in a && '.' !in b
    ensures FormatRelationship(a + "." + b) == Ok(IncludeHash(a, IncludeName(b)))
  {
    var s := a + "." + b;
    assert s == a + ['.'] + b;
    IndexOfFirst(s, '.', |a|);
    assert s[..|a|] == a && s[|a| + 1..] == b;
  }

  lemma StripAroundDot(a: string, b: string)
    requires a != [] && b != [] && Strip(a) == a && Strip(b) == b
    ensures Strip(a + "." + b) == a + "." + b
  {
    var s := a + "." + b;
    StripTrimmed(s);
  }

  /**
   * On a field without white space the two formatters agree: serialising the include tree
   * node parsed from it gives what `formatted_includes_relationship` gives.
   */
  lemma {:induction false} AgreesWithIncludeTree(relationship: string)
    requires forall i :: 0 <= i < |relationship| ==> !IsStripSpace(relationship[i])
    ensures IncludeParam.New(relationship).Ok? <==> FormatRelationship(relationship).Ok?
    ensures IncludeParam.New(relationship).Ok? ==>
      IncludeParam.Serialize(IncludeParam.New(relationship).value) == FormatRelationship(relationship).value
    decreases |relationship|
  {
    StripTrimmed(relationship);
    var parts := SplitOnce(relationship, '.');
    if |parts| == 1 {
      assert IncludeParam.New(relationship) == Ok(IncludeParam.Param(parts[0], []));
      IncludeParam.SerializeChain(parts[0], IncludeParam.Param(parts[0], []));
    } else if |parts| == 2 {
      var rest := parts[1];
      NoSpaceInRest(relationship, parts[0], rest);
      AgreesWithIncludeTree(rest);
      NewSteps(relationship, parts[0], rest);
      if IncludeParam.New(rest).Ok? {
        IncludeParam.SerializeChain(parts[0], IncludeParam.New(rest).value);
      }
    }
  }

  lemma NoSpaceInRest(s: string, head: string, rest: string)
    requires s == head + ['.'] + rest
    requires forall i :: 0 <= i < |s| ==> !IsStripSpace(s[i])
    ensures forall i :: 0 <= i < |rest| ==> !IsStripSpace(rest[i])
  {
    assert forall i :: 0 <= i < |rest| ==> rest[i] == s[|head| + 1 + i];
  }

  /** Both formatters recurse on the text after the first dot of an unpadded token. */
  lemma NewSteps(s: string, head: string, rest: string)
    requires Strip(s) == s && SplitOnce(s, '.') == [head, rest]
    ensures IncludeParam.New(s).Ok? <==> IncludeParam.New(rest).Ok?
    ensures IncludeParam.New(s).Ok? ==> IncludeParam.New(s).value == IncludeParam.Param(head, [IncludeParam.New(rest).value])
    ensures FormatRelationship(s).Ok? <==> FormatRelationship(rest).Ok?
    ensures FormatRelationship(s).Ok? ==> FormatRelationship(s).value == IncludeHash(head, FormatRelationship(rest).value)
  {
  }
}
