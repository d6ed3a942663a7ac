/**
 * `Paginator::Keyset`: cursor pagination. The page parameters name a column, a position in
 * it, a direction (`after` or anything else) and a limit; the collection is reordered by the
 * column, limited, and cut at the position with a strict comparison.
 */
module Keyset {
  import opened Wrappers
  import opened Relation

  const DefaultDirection: string := "after"
  const DefaultLimit: int := 25

  /** The page parameters as given: any key may be missing, and values are untyped. */
  type PageParams = map<string, Value>

  /** The record `extract_pagination_params` builds, which `paginate` also returns as the details. */
  datatype KeysetParams = KeysetParams(column: Value, position: Value, direction: Value, limit: Value)

  /** `params.fetch(key, default)`: a present key wins even when its value is nil. */
  function Fetch(params: PageParams, key: string, default: Value): (v: Value)
    ensures key in params ==> v == params[key]
    ensures key !in params ==> v == default
  {
    if key in params then params[key] else default
  }

  /** `extract_pagination_params`: column and position default to nil, direction to `:after`, limit to 25. */
  function ExtractPaginationParams(params: PageParams): (p: KeysetParams)
    ensures p.column == Fetch(params, "column", Nil) && p.position == Fetch(params, "position", Nil)
    ensures p.direction == Fetch(params, "direction", Str(DefaultDirection))
    ensures p.limit == Fetch(params, "limit", Int(DefaultLimit))
  {
    KeysetParams(
      Fetch(params, "column", Nil),
      Fetch(params, "position", Nil),
      Fetch(params, "direction", Str(DefaultDirection)),
      Fetch(params, "limit", Int(DefaultLimit)))
  }

  /** The receiver's class name as `NoMethodError` reports it. */
  function ClassName(v: Value): string {
    match v
    case Nil => "nil"
    case Str(_) => "String"
    case Int(_) => "Integer"
    case Bool(b) => if b then "true" else "false"
  }

  /** `value.to_sym`: strings and symbols answer it; nil, integers and booleans raise. */
  function ToSym(v: Value): (r: Result<string>)
    ensures r.Ok? <==> v.Str?
    ensures r.Ok? ==> r.value == v.s
  {
    match v
    case Str(s) => Ok(s)
    case _ => Err(NoMethodError(ClassName(v), "to_sym"))
  }

  /** Ruby's `isspace`, which `String#to_i` skips before the number. */
  predicate IsSpace(c: char) {
    c == ' ' || ('\t' <= c <= '\r')
  }

  predicate IsDigit(c: char) {
    '0' <= c <= '9'
  }

  function SkipSpace(s: string): (r: string)
    ensures |r| <= |s| && r == s[|s| - |r|..]
    ensures r == [] || !IsSpace(r[0])
  {
    if s != [] && IsSpace(s[0]) then SkipSpace(s[1..]) else s
  }

  /** The leading run of digits, where a single `_` may sit between two digits; the underscores are dropped. */
  function DigitRun(s: string): (r: string)
    ensures forall i :: 0 <= i < |r| ==> IsDigit(r[i])
    ensures s == [] || !IsDigit(s[0]) ==> r == []
  {
    if s == [] || !IsDigit(s[0]) then []
    else if |s| >= 3 && s[1] == '_' && IsDigit(s[2]) then [s[0]] + DigitRun(s[2..])
    else [s[0]] + DigitRun(s[1..])
  }

  /** The number written by a string of decimal digits, most significant first. */
  function DecimalValue(digits: string): (n: nat)
    requires forall i :: 0 <= i < |digits| ==> IsDigit(digits[i])
  {
    if digits == [] then 0
    else
      assert IsDigit(digits[|digits| - 1]);
      DecimalValue(digits[..|digits| - 1]) * 10 + (digits[|digits| - 1] as int - '0' as int)
  }

  /** `String#to_i`: white space, an optional sign, then the digits; no digits read as 0. */
  function ToI(s: string): (i: int)
    ensures var t := SkipSpace(s);
      t == [] || !(IsDigit(t[0]) || t[0] == '-' || t[0] == '+') ==> i == 0
  {
    var t := SkipSpace(s);
    if t != [] && t[0] == '-' then -(DecimalValue(DigitRun(t[1..])) as int)
    else if t != [] && t[0] == '+' then DecimalValue(DigitRun(t[1..]))
    else DecimalValue(DigitRun(t))
  }

  /** The decimal digits of `n`, as `Integer#to_s` writes them. */
  function Decimal(n: nat): (r: string)
    ensures r != [] && IsDigit(r[0])
    ensures forall i :: 0 <= i < |r| ==> IsDigit(r[i])
  {
    if n < 10 then [('0' as int + n) as char] else Decimal(n / 10) + [('0' as int + n % 10) as char]
  }

  /** `Integer#to_s`. */
  function IntegerToS(i: int): string {
    if i < 0 then "-" + Decimal(-i) else Decimal(i)
  }

  lemma {:induction false} DigitRunOfDigits(digits: string)
    requires forall i :: 0 <= i < |digits| ==> IsDigit(digits[i])
    ensures DigitRun(digits) == digits
  {
    if digits != [] {
      DigitRunOfDigits(digits[1..]);
    }
  }

  lemma {:induction false} DecimalValueOfDecimal(n: nat)
    ensures DecimalValue(Decimal(n)) == n
  {
    if n >= 10 {
      DecimalValueOfDecimal(n / 10);
      var d := Decimal(n);
      assert d[..|d| - 1] == Decimal(n / 10);
    }
  }

  lemma ToIDecimal(n: nat)
    ensures ToI(Decimal(n)) == n
  {
    var d := Decimal(n);
    ReadDigits(d);
    DigitRunOfDigits(d);
    DecimalValueOfDecimal(n);
  }

  /** A string that starts with a digit is read as its leading digit run. */
  lemma ReadDigits(d: string)
    requires d != [] && IsDigit(d[0])
    ensures ToI(d) == DecimalValue(DigitRun(d))
  {
    assert !IsSpace(d[0]) && d[0] != '-' && d[0] != '+';
    assert SkipSpace(d) == d;
  }

  lemma ToINegative(n: nat)
    ensures ToI("-" + Decimal(n)) == -(n as int)
  {
    var d := Decimal(n);
    var s := "-" + d;
    assert SkipSpace(s) == s;
    assert s[1..] == d;
    DigitRunOfDigits(d);
    DecimalValueOfDecimal(n);
  }

  /** `to_i` reads back what `to_s` writes: `limit` may come as the integer or its decimal string. */
  lemma IntegerToSToI(i: int)
    ensures ToI(IntegerToS(i)) == i
  {
    if i < 0 {
      ToINegative(-i);
    } else {
      ToIDecimal(i);
    }
  }

  /** `value.to_i`: a string is parsed, an integer is itself, nil is 0; booleans raise. */
  function ToInteger(v: Value): (r: Result<int>)
    ensures r.Ok? <==> !v.Bool?
    ensures v.Int? ==> r == Ok(v.i)
    ensures v.Nil? ==> r == Ok(0)
  {
    match v
    case Str(s) => Ok(ToI(s))
    case Int(i) => Ok(i)
    case Nil => Ok(0)
    case Bool(_) => Err(NoMethodError(ClassName(v), "to_i"))
  }

  /** `apply_order`: ascending by the column for `:after`, descending for any other direction. */
  function ApplyOrder(collection: Collection, column: Value, direction: Value): (r: Result<Collection>)
    ensures r.Ok? <==> direction.Str?
    ensures r.Ok? ==> r.value == collection.Then(Reorder([ColumnOrder(column, if direction.s == DefaultDirection then Asc else Desc)]))
  {
    var d :- ToSym(direction);
    if d == DefaultDirection then Ok(collection.Then(Reorder([ColumnOrder(column, Asc)])))
    else Ok(collection.Then(Reorder([ColumnOrder(column, Desc)])))
  }

  /** `apply_filter`: strictly after the position for `:after`, strictly before it otherwise. */
  function ApplyFilter(collection: Collection, column: Value, position: Value, direction: Value): (r: Result<Collection>)
    ensures r.Ok? <==> direction.Str?
    ensures r.Ok? ==> r.value == collection.Then(Where(
      if direction.s == DefaultDirection then GreaterThan(column, position) else LessThan(column, position)))
  {
    var d :- ToSym(direction);
    if d == DefaultDirection then Ok(collection.Then(Where(GreaterThan(column, position))))
    else Ok(collection.Then(Where(LessThan(column, position))))
  }

  /** `apply_pagination`: nothing without a column; otherwise order and limit, then the cut when a position is given. */
  function ApplyPagination(collection: Collection, p: KeysetParams): (r: Result<Collection>)
    ensures !p.column.Truthy() ==> r == Ok(collection)
    ensures r.Ok? ==> r.value.source == collection.source
  {
    if !p.column.Truthy() then Ok(collection)
    else
      var ordered :- ApplyOrder(collection, p.column, p.direction);
      var count :- ToInteger(p.limit);
      var limited := ordered.Then(Limit(count));
      if !p.position.Truthy() then Ok(limited)
      else ApplyFilter(limited, p.column, p.position, p.direction)
  }

  /** `paginate(page_params)`: the paginated records and, as details, the defaulted parameters. */
  function Paginate(collection: Collection, pageParams: PageParams): (r: Result<(Collection, KeysetParams)>)
    ensures r.Ok? ==> r.value.1 == ExtractPaginationParams(pageParams)
    ensures r.Ok? <==> ApplyPagination(collection, ExtractPaginationParams(pageParams)).Ok?
    ensures r.Ok? ==> r.value.0 == ApplyPagination(collection, ExtractPaginationParams(pageParams)).value
  {
    var p := ExtractPaginationParams(pageParams);
    var records :- ApplyPagination(collection, p);
    Ok((records, p))
  }

  /** The calls a successful page adds, given the column, position, direction symbol and limit. */
  function PageOps(column: Value, position: Value, direction: string, limit: int): seq<Op> {
    var ascending := direction == DefaultDirection;
    [Reorder([ColumnOrder(column, if ascending then Asc else Desc)]), Limit(limit)]
      + if position.Truthy() then
          [Where(if ascending then GreaterThan(column, position) else LessThan(column, position))]
        else []
  }

  /**
   * With a column, a page is exactly: reorder by the column, limit by `limit.to_i`, and
   * (with a position) one strict comparison in the order's own direction. It raises
   * exactly when the direction is not a string or symbol or the limit is a boolean.
   */
  lemma PaginationWithColumn(collection: Collection, p: KeysetParams)
    requires p.column.Truthy()
    ensures ApplyPagination(collection, p).Ok? <==> p.direction.Str? && !p.limit.Bool?
    ensures ApplyPagination(collection, p).Ok? ==>
      ApplyPagination(collection, p).value.ops
        == collection.ops + PageOps(p.column, p.position, p.direction.s, ToInteger(p.limit).value)
  {
  }

  /**
   * The cut always agrees with the order: an ascending page keeps the rows strictly greater
   * than the position and a descending page the rows strictly less.
   */
  lemma CutAgreesWithOrder(column: Value, position: Value, direction: string, limit: int)
    requires position.Truthy()
    ensures var ops := PageOps(column, position, direction, limit);
      |ops| == 3 && ops[0].Reorder? && |ops[0].args| == 1 && ops[0].args[0].ColumnOrder? && ops[2].Where?
      && (ops[0].args[0].direction == Asc <==> ops[2].condition.GreaterThan?)
      && (ops[0].args[0].direction == Desc <==> ops[2].condition.LessThan?)
  {
  }

  /** With no parameters at all the collection comes back untouched, and the details are the defaults. */
  lemma PaginateWithoutParams(collection: Collection)
    ensures Paginate(collection, map[]) == Ok((collection, KeysetParams(Nil, Nil, Str("after"), Int(25))))
  {
  }

  /** `{column: :id}` orders by `id` ascending with the default limit of 25, and cuts nothing. */
  lemma PaginateByColumnOnly(collection: Collection)
    ensures Paginate(collection, map["column" := Str("id")]).Ok?
    ensures Paginate(collection, map["column" := Str("id")]).value.0.ops
      == collection.ops + [Reorder([ColumnOrder(Str("id"), Asc)]), Limit(25)]
  {
    var p := ExtractPaginationParams(map["column" := Str("id")]);
    assert p == KeysetParams(Str("id"), Nil, Str("after"), Int(25));
    PaginationWithColumn(collection, p);
  }

  /** `{column: :id, limit: 10, position: 5, direction: :before}` gives `id < 5`, `id DESC`, limit 10. */
  lemma PaginateBefore(collection: Collection)
    ensures var params := map["column" := Str("id"), "limit" := Int(10), "position" := Int(5), "direction" := Str("before")];
      Paginate(collection, params).Ok? &&
      Paginate(collection, params).value.0.ops
        == collection.ops + [Reorder([ColumnOrder(Str("id"), Desc)]), Limit(10), Where(LessThan(Str("id"), Int(5)))]
  {
    var params := map["column" := Str("id"), "limit" := Int(10), "position" := Int(5), "direction" := Str("before")];
    var p := ExtractPaginationParams(params);
    assert p == KeysetParams(Str("id"), Int(5), Str("before"), Int(10));
    PaginationWithColumn(collection, p);
  }
}
