/**
 * `Mixins::Include::Param`: one node of the include tree. `a.b.c` parses into a chain of
 * nodes; params with the same top-level relationship are merged, and children with the
 * same relationship are merged recursively, so siblings never repeat. A node serialises
 * to the symbol / pair / list shapes `includes` accepts.
 */
module IncludeParam {
  import opened Wrappers
  import opened Text
  import opened Relation

  /** `relationship` and `children`, as values. */
  datatype Param = Param(relationship: string, children: seq<Param>)

  /** The number of nodes in a tree. */
  function Size(p: Param): nat
    decreases p, 1
  {
    1 + SizeAll(p.children)
  }

  function SizeAll(ps: seq<Param>): nat
    decreases ps, 0
  {
    if ps == [] then 0 else Size(ps[0]) + SizeAll(ps[1..])
  }

  /** Every node of a forest is smaller than the forest. */
  lemma {:induction false} SizeAllBounds(ps: seq<Param>, i: nat)
    requires i < |ps|
    ensures Size(ps[i]) <= SizeAll(ps)
    decreases |ps|
  {
    if i > 0 {
      SizeAllBounds(ps[1..], i - 1);
    }
  }

  /** The relationships of a list of nodes, in order. */
  function Relationships(ps: seq<Param>): (r: seq<string>)
    ensures |r| == |ps|
    ensures forall i :: 0 <= i < |ps| ==> r[i] == ps[i].relationship
  {
    seq(|ps|, i requires 0 <= i < |ps| => ps[i].relationship)
  }

  /**
   * `Param.new(param)`: strip, `split(".", 2)`; the text after the first dot becomes the
   * only child, parsed the same way. A token that is empty once stripped (the whole token,
   * or what follows a dot, as in `a.` or `a. `) splits into nothing, and `nil.to_sym`
   * raises; an empty segment between two dots is the empty symbol.
   */
  function New(param: string): (r: Result<Param>)
    ensures Strip(param) == [] ==> r.Err?
    ensures r.Ok? ==> |r.value.children| <= 1
    ensures r.Ok? && '.' !in Strip(param) ==> r.value == Param(Strip(param), [])
    decreases |param|
  {
    var parts := SplitOnce(Strip(param), '.');
    if parts == [] then Err(NoMethodError("nil", "to_sym"))
    else if |parts| == 1 then Ok(Param(parts[0], []))
    else
      var child :- New(parts[1]);
      Ok(Param(parts[0], [child]))
  }

  /**
   * Exactly the tokens that are empty once stripped, or end in a dot once stripped, raise:
   * the text after the last dot is then empty, and every other token parses.
   */
  lemma {:induction false} NewFailsExactly(param: string)
    ensures New(param).Err? <==> Strip(param) == [] || Strip(param)[|Strip(param)| - 1] == '.'
    decreases |param|
  {
    var t := Strip(param);
    var parts := SplitOnce(t, '.');
    if |parts| == 2 {
      var rest := parts[1];
      assert t == parts[0] + ['.'] + rest;
      if rest != [] {
        assert rest[|rest| - 1] == t[|t| - 1];
        StripKeepsLast(rest);
        NewFailsExactly(rest);
      }
    }
  }

  /** A chain: every node has at most one child. */
  predicate Chain(p: Param)
    decreases p
  {
    |p.children| == 0 || (|p.children| == 1 && Chain(p.children[0]))
  }

  /** The number of nodes on the longest path from `p` down. */
  function Depth(p: Param): nat
    decreases p
  {
    if p.children == [] then 1 else 1 + Depth(p.children[0])
  }

  /**
   * A token that parses is split at its first dot: the stripped text before it is the
   * relationship, the rest is the only child.
   */
  lemma NewSplitsAtFirstDot(param: string)
    requires New(param).Ok? && '.' in Strip(param)
    ensures var parts := SplitOnce(Strip(param), '.');
      |parts| == 2 && New(parts[1]).Ok?
      && New(param).value == Param(parts[0], [New(parts[1]).value])
      && '.' !in New(param).value.relationship
  {
  }

  /**
   * One step of `New`: a parsed token either is a leaf and holds no dot, or has exactly one
   * child, parsed from a shorter rest that holds one dot fewer.
   */
  lemma NewChild(param: string) returns (rest: string)
    requires New(param).Ok?
    ensures |rest| < |param|
    ensures New(param).value.children == [] ==> Count('.', param) == 0
    ensures New(param).value.children != [] ==>
      New(rest).Ok? && New(param).value.children == [New(rest).value]
      && Count('.', param) == Count('.', rest) + 1
  {
    var s := Strip(param);
    StripKeepsCount('.', param);
    var parts := SplitOnce(s, '.');
    SplitOnceCount(s);
    if |parts| == 1 {
      assert New(param).value == Param(s, []);
      rest := [];
    } else {
      assert New(param).value == Param(parts[0], [New(parts[1]).value]);
      rest := parts[1];
    }
  }

  /** Splitting at the first dot leaves one dot fewer in the rest. */
  lemma SplitOnceCount(s: string)
    ensures |SplitOnce(s, '.')| == 1 ==> Count('.', s) == 0
    ensures |SplitOnce(s, '.')| == 2 ==> Count('.', s) == Count('.', SplitOnce(s, '.')[1]) + 1
  {
    var parts := SplitOnce(s, '.');
    if |parts| == 1 {
      CountAbsent('.', s);
    } else if |parts| == 2 {
      CountAppend('.', parts[0] + ['.'], parts[1]);
      CountAppend('.', parts[0], ['.']);
      CountAbsent('.', parts[0]);
    }
  }

  /** A token with `k` dots parses into a single chain of `k + 1` nodes. */
  lemma {:induction false} NewIsChain(param: string)
    requires New(param).Ok?
    ensures Chain(New(param).value)
    ensures Depth(New(param).value) == Count('.', param) + 1
    decreases |param|
  {
    var rest := NewChild(param);
    if New(param).value.children != [] {
      NewIsChain(rest);
    }
  }

  /** The first child with the given relationship (`children.find`). */
  function Find(ps: seq<Param>, relationship: string): (r: Option<nat>)
    ensures r.Some? ==> r.value < |ps| && ps[r.value].relationship == relationship
    ensures r.Some? ==> forall j :: 0 <= j < r.value ==> ps[j].relationship != relationship
    ensures r.None? <==> relationship !in Relationships(ps)
  {
    if relationship in Relationships(ps) then Some(FirstIndex(Relationships(ps), relationship)) else None
  }

  /** `merge_children(other)`: the receiver with `other`'s children merged into its own. */
  function MergeChildren(p: Param, other: Param): (r: Param)
    ensures r.relationship == p.relationship
    decreases Size(other), 0
  {
    Param(p.relationship, MergeInto(p.children, other.children))
  }

  /** The `each` loop of `merge_children`: add the incoming children one by one. */
  function MergeInto(children: seq<Param>, incoming: seq<Param>): seq<Param>
    decreases SizeAll(incoming), 2
  {
    if incoming == [] then children
    else
      SizeAllBounds(incoming, 0);
      MergeInto(AddChild(children, incoming[0]), incoming[1..])
  }

  /** One step: merge into the existing child with the same relationship, or append. */
  function AddChild(children: seq<Param>, child: Param): (r: seq<Param>)
    ensures Relationships(r) == AppendNew(Relationships(children), [child.relationship])
    decreases Size(child), 1
  {
    assert [child.relationship][1..] == [];
    match Find(children, child.relationship)
    case None =>
      assert Relationships(children + [child]) == Relationships(children) + [child.relationship];
      children + [child]
    case Some(i) =>
      var r := children[i := MergeChildren(children[i], child)];
      assert Relationships(r) == Relationships(children);
      r
  }

  /** One turn of the `each` loop of `merge_children`. */
  lemma MergeIntoStep(children: seq<Param>, incoming: seq<Param>, k: nat)
    requires k < |incoming|
    ensures MergeInto(children, incoming[k..]) == MergeInto(AddChild(children, incoming[k]), incoming[k + 1..])
  {
    assert incoming[k..][0] == incoming[k] && incoming[k..][1..] == incoming[k + 1..];
  }

  /** The two outcomes of `find`: merge into the child found, or append. */
  lemma AddChildCases(children: seq<Param>, child: Param)
    ensures Find(children, child.relationship).None? ==> AddChild(children, child) == children + [child]
    ensures Find(children, child.relationship).Some? ==>
      var i := Find(children, child.relationship).value;
      AddChild(children, child) == children[i := MergeChildren(children[i], child)]
  {
  }

  /**
   * After merging, the relationships are the receiver's, in their order, followed by each
   * incoming relationship not yet present, in the order first seen.
   */
  lemma {:induction false} MergeIntoRelationships(children: seq<Param>, incoming: seq<Param>)
    ensures Relationships(MergeInto(children, incoming)) == AppendNew(Relationships(children), Relationships(incoming))
    decreases |incoming|
  {
    if incoming != [] {
      var next := AddChild(children, incoming[0]);
      assert MergeInto(children, incoming) == MergeInto(next, incoming[1..]);
      MergeIntoRelationships(next, incoming[1..]);
      var x := incoming[0].relationship;
      RelationshipsCons(incoming);
      AppendNewConcat(Relationships(children), [x], Relationships(incoming[1..]));
    }
  }

  lemma RelationshipsCons(ps: seq<Param>)
    requires ps != []
    ensures Relationships(ps) == [ps[0].relationship] + Relationships(ps[1..])
  {
  }

  /** Children whose relationship `other` does not mention are kept as they were, in place. */
  lemma {:induction false} MergeIntoKeepsOthers(children: seq<Param>, incoming: seq<Param>, i: nat)
    requires i < |children| && children[i].relationship !in Relationships(incoming)
    ensures i < |MergeInto(children, incoming)| && MergeInto(children, incoming)[i] == children[i]
    decreases |incoming|
  {
    if incoming != [] {
      var next := AddChild(children, incoming[0]);
      assert incoming[0].relationship != children[i].relationship by {
        assert Relationships(incoming)[0] == incoming[0].relationship;
      }
      assert next[i] == children[i];
      assert Relationships(incoming[1..]) == Relationships(incoming)[1..];
      MergeIntoKeepsOthers(next, incoming[1..], i);
    }
  }

  /**
   * With no repeated relationship among the incoming children, every appended child is one
   * of them, unchanged.
   */
  lemma {:induction false} MergeIntoAppendsIncoming(children: seq<Param>, incoming: seq<Param>, j: nat)
    requires Distinct(Relationships(incoming))
    requires |children| <= j < |MergeInto(children, incoming)|
    ensures MergeInto(children, incoming)[j] in incoming
    decreases |incoming|
  {
    var next := AddChild(children, incoming[0]);
    var rest := incoming[1..];
    assert Relationships(rest) == Relationships(incoming)[1..];
    assert Distinct(Relationships(rest));
    MergeIntoRelationships(next, rest);
    if j < |next| {
      assert next == children + [incoming[0]] && j == |children|;
      assert incoming[0].relationship !in Relationships(rest) by {
        assert Relationships(incoming)[0] == incoming[0].relationship;
      }
      MergeIntoKeepsOthers(next, rest, j);
    } else {
      MergeIntoAppendsIncoming(next, rest, j);
    }
  }

  /** Every level of the tree has pairwise-distinct sibling relationships. */
  predicate WellFormed(p: Param)
    decreases p, 1
  {
    AllWellFormed(p.children)
  }

  predicate AllWellFormed(ps: seq<Param>)
    decreases ps, 0
  {
    Distinct(Relationships(ps)) && forall i :: 0 <= i < |ps| ==> WellFormed(ps[i])
  }

  /** A parsed token is well formed: a chain has no siblings. */
  lemma {:induction false} NewWellFormed(param: string)
    requires New(param).Ok?
    ensures WellFormed(New(param).value)
    decreases |param|
  {
    var rest := NewChild(param);
    if New(param).value.children != [] {
      NewWellFormed(rest);
      SingleChildWellFormed(New(param).value, New(rest).value);
    }
  }

  lemma SingleChildWellFormed(p: Param, child: Param)
    requires p.children == [child] && WellFormed(child)
    ensures WellFormed(p)
  {
    assert Relationships(p.children) == [child.relationship];
  }

  /** Merging two well-formed trees never creates a repeated sibling, at any depth. */
  lemma {:induction false} MergeChildrenWellFormed(p: Param, other: Param)
    requires WellFormed(p) && WellFormed(other)
    ensures WellFormed(MergeChildren(p, other))
    decreases Size(other), 0
  {
    MergeIntoWellFormed(p.children, other.children);
  }

  lemma {:induction false} MergeIntoWellFormed(children: seq<Param>, incoming: seq<Param>)
    requires AllWellFormed(children) && forall i :: 0 <= i < |incoming| ==> WellFormed(incoming[i])
    ensures AllWellFormed(MergeInto(children, incoming))
    decreases SizeAll(incoming), 2
  {
    if incoming != [] {
      SizeAllBounds(incoming, 0);
      AddChildWellFormed(children, incoming[0]);
      MergeIntoWellFormed(AddChild(children, incoming[0]), incoming[1..]);
    }
  }

  lemma {:induction false} AddChildWellFormed(children: seq<Param>, child: Param)
    requires AllWellFormed(children) && WellFormed(child)
    ensures AllWellFormed(AddChild(children, child))
    decreases Size(child), 1
  {
    match Find(children, child.relationship)
    case None =>
    case Some(i) =>
      MergeChildrenWellFormed(children[i], child);
  }

  /**
   * `merge_children(other)` as the source runs it: a loop over `other`'s children that finds
   * an existing child with the same relationship and merges into it recursively, or appends.
   */
  method MergeChildrenInPlace(p: Param, other: Param) returns (r: Param)
    ensures r == MergeChildren(p, other)
    decreases Size(other)
  {
    var children := p.children;
    var k := 0;
    while k < |other.children|
      invariant 0 <= k <= |other.children|
      invariant MergeInto(children, other.children[k..]) == MergeInto(p.children, other.children)
    {
      var child := other.children[k];
      ghost var next := AddChild(children, child);
      MergeIntoStep(children, other.children, k);
      AddChildCases(children, child);
      SizeAllBounds(other.children, k);
      match Find(children, child.relationship) {
        case None =>
          children := children + [child];
        case Some(i) =>
          var merged := MergeChildrenInPlace(children[i], child);
          children := children[i := merged];
      }
      assert children == next;
      k := k + 1;
    }
    assert other.children[k..] == [];
    r := Param(p.relationship, children);
  }

  /** `map(&method(:new))` over the comma fields, each outcome kept. */
  function ParseAll(fields: seq<string>): (rs: seq<Result<Param>>)
    ensures |rs| == |fields|
    ensures forall i :: 0 <= i < |fields| ==> rs[i] == New(fields[i])
  {
    seq(|fields|, i requires 0 <= i < |fields| => New(fields[i]))
  }

  /** The parsed params when every field parses; the first error otherwise (`map` stops at the first raise). */
  function Collect(rs: seq<Result<Param>>): (r: Result<seq<Param>>)
    ensures r.Ok? ==> |r.value| == |rs| && forall i :: 0 <= i < |rs| ==> rs[i] == Ok(r.value[i])
    ensures r.Err? ==> exists i :: 0 <= i < |rs| && rs[i] == Err(r.error)
    decreases |rs|
  {
    if rs == [] then Ok([])
    else
      assert forall i :: 1 <= i < |rs| ==> rs[i] == rs[1..][i - 1];
      match rs[0]
      case Err(e) => Err(e)
      case Ok(head) =>
        match Collect(rs[1..])
        case Err(e) => Err(e)
        case Ok(rest) => Ok([head] + rest)
  }

  /**
   * `Param.deserialize_params(include_params)`: nil is the empty string; every field is
   * parsed, then each param is merged into the first earlier one with the same relationship
   * or appended.
   */
  function DeserializeParams(includeParams: Option<string>): (r: Result<seq<Param>>)
    ensures includeParams.None? ==> r == Ok([])
  {
    var params :- Collect(ParseAll(RubySplit(includeParams.GetOr(""), ',')));
    Ok(MergeInto([], params))
  }

  /**
   * The result has one node per distinct top-level relationship, in first-seen order, and
   * no repeated sibling anywhere below.
   */
  lemma DeserializeParamsDistinct(includeParams: Option<string>)
    requires DeserializeParams(includeParams).Ok?
    ensures var params := Collect(ParseAll(RubySplit(includeParams.GetOr(""), ','))).value;
      var r := DeserializeParams(includeParams).value;
      && Relationships(r) == AppendNew([], Relationships(params))
      && AllWellFormed(r)
  {
    var params := Collect(ParseAll(RubySplit(includeParams.GetOr(""), ','))).value;
    MergeIntoRelationships([], params);
    forall i | 0 <= i < |params|
      ensures WellFormed(params[i])
    {
      NewWellFormed(RubySplit(includeParams.GetOr(""), ',')[i]);
    }
    MergeIntoWellFormed([], params);
  }

  /** `deserialize_params` as the source runs it: map, then a find-or-append loop over a memo. */
  method DeserializeParamsInPlace(includeParams: Option<string>) returns (r: Result<seq<Param>>)
    ensures r == DeserializeParams(includeParams)
  {
    var parsed := Collect(ParseAll(RubySplit(includeParams.GetOr(""), ',')));
    if parsed.Err? {
      return Err(parsed.error);
    }
    var memo := MergeParams(parsed.value);
    return Ok(memo);
  }

  /** The `each_with_object([])` loop: merge each param into an earlier one with its relationship, or append it. */
  method MergeParams(params: seq<Param>) returns (memo: seq<Param>)
    ensures memo == MergeInto([], params)
  {
    memo := [];
    var k := 0;
    while k < |params|
      invariant 0 <= k <= |params|
      invariant MergeInto(memo, params[k..]) == MergeInto([], params)
    {
      var param := params[k];
      MergeIntoStep(memo, params, k);
      AddChildCases(memo, param);
      match Find(memo, param.relationship) {
        case None =>
          memo := memo + [param];
        case Some(j) =>
          var merged := MergeChildrenInPlace(memo[j], param);
          memo := memo[j := merged];
      }
      k := k + 1;
    }
    assert params[k..] == [];
  }

  /** When every outcome is a param, `Collect` gives exactly those params. */
  lemma {:induction false} CollectAllOk(rs: seq<Result<Param>>, params: seq<Param>)
    requires |rs| == |params| && forall j :: 0 <= j < |rs| ==> rs[j] == Ok(params[j])
    ensures Collect(rs) == Ok(params)
    decreases |rs|
  {
    if rs != [] {
      CollectAllOk(rs[1..], params[1..]);
      assert params == [params[0]] + params[1..];
    }
  }

  /** The first failing field decides the error. */
  lemma {:induction false} CollectFirstErr(rs: seq<Result<Param>>, i: nat)
    requires i < |rs| && rs[i].Err? && forall j :: 0 <= j < i ==> rs[j].Ok?
    ensures Collect(rs) == Err(rs[i].error)
    decreases i
  {
    if i > 0 {
      CollectFirstErr(rs[1..], i - 1);
    }
  }

  /**
   * `serialize`: the bare relationship without children, `{relationship => child}` with one,
   * `{relationship => [children]}` with more.
   */
  function Serialize(p: Param): IncludeSpec
    decreases p
  {
    if |p.children| == 0 then IncludeName(p.relationship)
    else if |p.children| == 1 then IncludeHash(p.relationship, Serialize(p.children[0]))
    else IncludeHashList(p.relationship, seq(|p.children|, i requires 0 <= i < |p.children| => Serialize(p.children[i])))
  }

  /** The node an `includes` argument describes: the inverse of `serialize`. */
  function Deserialize(s: IncludeSpec): Param
    decreases s
  {
    match s
    case IncludeName(name) => Param(name, [])
    case IncludeHash(key, value) => Param(key, [Deserialize(value)])
    case IncludeHashList(key, values) => Param(key, seq(|values|, i requires 0 <= i < |values| => Deserialize(values[i])))
  }

  /** `serialize` loses nothing: the tree can be read back from what it produces. */
  lemma {:induction false} DeserializeSerialize(p: Param)
    ensures Deserialize(Serialize(p)) == p
    decreases p
  {
    if |p.children| == 1 {
      DeserializeSerialize(p.children[0]);
    } else if |p.children| > 1 {
      forall i | 0 <= i < |p.children|
        ensures Deserialize(Serialize(p.children[i])) == p.children[i]
      {
        DeserializeSerialize(p.children[i]);
      }
    }
  }

  /** A parsed chain serialises to nested one-pair hashes ending in a bare symbol. */
  lemma SerializeChain(relationship: string, child: Param)
    ensures Serialize(Param(relationship, [child])) == IncludeHash(relationship, Serialize(child))
    ensures Serialize(Param(relationship, [])) == IncludeName(relationship)
  {
  }
}
