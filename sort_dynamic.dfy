/**
 * `Mixins::Sort::Dynamic`: a sort declared under an attribute prefix. It matches any
 * attribute that starts with the prefix, removes the prefix and hands the remaining
 * attribute to its strategy together with the direction.
 */
module SortDynamic {
  import opened Wrappers
  import opened Text
  import opened Relation
  import SortParam
  import SortStatic

  /** A strategy: a callable `(collection, attribute, direction)` or a class built from the same. */
  datatype Strategy =
    | Callable(call: (Collection, string, Direction) -> Collection)
    | SortClass(construct: (Collection, string, Direction) -> SortStatic.SortInstance)

  datatype Dynamic = Dynamic(attributePrefix: string, sort: Strategy)

  /** `Dynamic.new(attribute_prefix, sort)`; the prefix is kept as a string (`to_s`). */
  function New(attributePrefix: string, sort: Strategy): (d: Dynamic)
    ensures d.attributePrefix == attributePrefix && d.sort == sort
  {
    Dynamic(attributePrefix, sort)
  }

  /** `matches?(sort_attribute)`: `start_with?(attribute_prefix)`. */
  predicate Matches(d: Dynamic, sortAttribute: string) {
    StartsWith(sortAttribute, d.attributePrefix)
  }

  /** The attribute passed on: the param's attribute with the first occurrence of the prefix removed. */
  function DynamicAttribute(d: Dynamic, param: SortParam.Param): string {
    Sub(param.attribute, d.attributePrefix)
  }

  /** `results(collection, sort_param)`. */
  function Results(d: Dynamic, collection: Collection, param: SortParam.Param): Collection {
    var attribute := DynamicAttribute(d, param);
    match d.sort
    case Callable(call) => call(collection, attribute, SortParam.Direction(param))
    case SortClass(construct) => construct(collection, attribute, SortParam.Direction(param)).results
  }

  /** A prefix matches exactly the attributes that extend it; the empty prefix matches every attribute. */
  lemma MatchesExactlyExtensions(d: Dynamic, a: string)
    ensures Matches(d, a) <==> exists rest :: a == d.attributePrefix + rest
    ensures d.attributePrefix == "" ==> Matches(d, a)
  {
    if Matches(d, a) {
      assert a == d.attributePrefix + a[|d.attributePrefix|..];
    }
    forall rest | a == d.attributePrefix + rest
      ensures Matches(d, a)
    {
      assert a[..|d.attributePrefix|] == d.attributePrefix;
    }
  }

  /** When the attribute matches, the strategy receives exactly the suffix after the prefix. */
  lemma MatchedAttributeIsSuffix(d: Dynamic, param: SortParam.Param)
    requires Matches(d, param.attribute)
    ensures DynamicAttribute(d, param) == param.attribute[|d.attributePrefix|..]
  {
    assert param.attribute[0..] == param.attribute;
    assert FindSub(param.attribute, d.attributePrefix) == Some(0);
  }

  /**
   * `sub` removes the first occurrence wherever it is: an attribute that merely contains the
   * prefix loses that occurrence, and one that does not contain it is passed on unchanged.
   */
  lemma UnmatchedAttribute(d: Dynamic, param: SortParam.Param)
    ensures (forall j :: 0 <= j <= |param.attribute| ==> !StartsWith(param.attribute[j..], d.attributePrefix))
            ==> DynamicAttribute(d, param) == param.attribute
    ensures forall j :: 0 <= j <= |param.attribute| - |d.attributePrefix|
              && StartsWith(param.attribute[j..], d.attributePrefix)
              && (forall k :: 0 <= k < j ==> !StartsWith(param.attribute[k..], d.attributePrefix))
              ==> DynamicAttribute(d, param)
                  == param.attribute[..j] + param.attribute[j + |d.attributePrefix|..]
  {
    var a := param.attribute;
    var p := d.attributePrefix;
    forall j | 0 <= j <= |a| - |p| && StartsWith(a[j..], p) && (forall k :: 0 <= k < j ==> !StartsWith(a[k..], p))
      ensures DynamicAttribute(d, param) == a[..j] + a[j + |p|..]
    {
      var f := FindSub(a, p);
      assert f.Some?;
      assert !(f.value < j) && !(j < f.value);
    }
  }

  /** A callable receives `(collection, stripped attribute, direction)`; a class is built from them and its `results` returned. */
  lemma ResultsDispatch(d: Dynamic, collection: Collection, param: SortParam.Param)
    requires Matches(d, param.attribute)
    ensures d.sort.Callable? ==>
      Results(d, collection, param) == d.sort.call(collection, param.attribute[|d.attributePrefix|..], SortParam.Direction(param))
    ensures d.sort.SortClass? ==>
      Results(d, collection, param) == d.sort.construct(collection, param.attribute[|d.attributePrefix|..], SortParam.Direction(param)).results
  {
    MatchedAttributeIsSuffix(d, param);
  }
}
