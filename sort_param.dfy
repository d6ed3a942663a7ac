/**
 * `Mixins::Sort::Param`: one token of the `sort` request parameter. A leading `-` asks
 * for descending order; the rest of the (stripped) token is the attribute.
 */
module SortParam {
  import opened Wrappers
  import opened Text
  import opened Relation

  /** `descending` is the matched `"-"` marker, or nil. */
  datatype Param = Param(descending: Option<string>, attribute: string)

  /**
   * `Param.new(param)`: strip, then match `^(-)?(.*)$`. At most one `-` is taken, and the
   * attribute capture stops at the first line break.
   */
  function New(param: string): (p: Param)
    ensures p.descending == None || p.descending == Some("-")
    ensures p.descending == Some("-") <==> StartsWith(Strip(param), "-")
    ensures '\n' !in p.attribute
  {
    var t := Strip(param);
    if |t| > 0 && t[0] == '-' then Param(Some("-"), FirstLine(t[1..]))
    else Param(None, FirstLine(t))
  }

  /** `serialize`: `[descending, attribute].compact.join`. */
  function Serialize(p: Param): string {
    (if p.descending.Some? then p.descending.value else "") + p.attribute
  }

  /** `direction`: `:desc` when the marker is present (`present?`), `:asc` otherwise. */
  function Direction(p: Param): Relation.Direction {
    if p.descending.Some? && !IsBlank(p.descending.value) then Desc else Asc
  }

  /** `Param.deserialize_params`: nil is the empty string; one param per `split(",")` field. */
  function DeserializeParams(sortParams: Option<string>): (ps: seq<Param>)
    ensures sortParams.None? ==> ps == []
    ensures |ps| == |RubySplit(sortParams.GetOr(""), ',')|
    ensures forall i :: 0 <= i < |ps| ==> ps[i] == New(RubySplit(sortParams.GetOr(""), ',')[i])
  {
    var fields := RubySplit(sortParams.GetOr(""), ',');
    seq(|fields|, i requires 0 <= i < |fields| => New(fields[i]))
  }

  /** A token parses to descending order exactly when its stripped text begins with `-`. */
  lemma DirectionOfNew(t: string)
    ensures Direction(New(t)) == Desc <==> StartsWith(Strip(t), "-")
  {
    assert !IsBlank("-") by { assert !IsBlankSpace("-"[0]); }
  }

  /**
   * Serialising a parsed token gives back the stripped token exactly when that token has no
   * line break; a line break cuts the attribute short.
   */
  lemma SerializeNew(t: string)
    ensures Serialize(New(t)) == Strip(t) <==> '\n' !in Strip(t)
  {
    var s := Strip(t);
    var p := New(t);
    if |s| > 0 && s[0] == '-' {
      assert s == "-" + s[1..];
      if '\n' in s {
        assert '\n' in s[1..];
        assert '\n' !in Serialize(p) by {
          assert Serialize(p) == "-" + p.attribute;
        }
      }
    } else {
      assert Serialize(p) == p.attribute;
    }
  }

  /** Only the first `-` is consumed: `--a` is the attribute `-a`, descending. */
  lemma OnlyOneDashConsumed(a: string)
    requires Strip(a) == a && '\n' !in a
    ensures New("-" + a) == Param(Some("-"), a)
  {
    var t := "-" + a;
    assert t[1..] == a;
    assert a == [] || (!IsStripSpace(a[0]) && !IsStripSpace(a[|a| - 1]));
    StripTrimmed(t);
  }

  /** White space around the whole token never reaches the parsed param. */
  lemma PaddingIgnored(w1: string, t: string, w2: string)
    requires AllStripSpace(w1) && AllStripSpace(w2)
    ensures New(w1 + t + w2) == New(t)
  {
    StripIgnoresPadding(w1, t, w2);
  }

  /**
   * A sort string whose fields carry no surrounding white space or line break, and which does
   * not end with a comma, is rebuilt exactly by serialising its params and joining them with commas.
   */
  lemma {:induction false} DeserializeParamsRoundTrip(s: string)
    requires s == [] || s[|s| - 1] != ','
    requires forall f :: f in SplitAll(s, ',') ==> Strip(f) == f && '\n' !in f
    ensures Join(MapSerialize(DeserializeParams(Some(s))), ',') == s
  {
    var fields := SplitAll(s, ',');
    var ps := DeserializeParams(Some(s));
    if s == [] {
      assert ps == [];
      assert MapSerialize(ps) == [];
    } else {
      RubySplitKeepsFields(s, ',');
      SerializeFields(fields, ps);
      JoinSplitAll(s, ',');
    }
  }

  /** Clean fields parse into params that serialise back to the same fields. */
  lemma SerializeFields(fields: seq<string>, ps: seq<Param>)
    requires |ps| == |fields| && forall i :: 0 <= i < |ps| ==> ps[i] == New(fields[i])
    requires forall f :: f in fields ==> Strip(f) == f && '\n' !in f
    ensures MapSerialize(ps) == fields
  {
    MapSerializeAt(ps);
    forall i | 0 <= i < |fields|
      ensures MapSerialize(ps)[i] == fields[i]
    {
      assert fields[i] in fields;
      SerializeNew(fields[i]);
    }
  }

  function MapSerialize(ps: seq<Param>): seq<string> {
    if ps == [] then [] else [Serialize(ps[0])] + MapSerialize(ps[1..])
  }

  lemma {:induction false} MapSerializeAt(ps: seq<Param>)
    ensures |MapSerialize(ps)| == |ps|
    ensures forall i :: 0 <= i < |ps| ==> MapSerialize(ps)[i] == Serialize(ps[i])
  {
    if ps != [] {
      MapSerializeAt(ps[1..]);
    }
  }
}
