/**
 * The Ruby and ActiveSupport string and array helpers the core relies on:
 * `String#strip`, `String#split` (with and without a limit), `String#start_with?`,
 * `String#sub` with a literal pattern, `Object#blank?`/`presence`, `Array#uniq`,
 * and the end-of-line behaviour of `.*$` in a Ruby regular expression.
 */
module Text {
  import opened Wrappers

  /** The characters `String#strip` removes: NUL, tab, line feed, vertical tab, form feed, carriage return, space. */
  predicate IsStripSpace(c: char) {
    c == '\0' || ('\t' <= c <= '\r') || c == ' '
  }

  predicate AllStripSpace(s: string) {
    forall i :: 0 <= i < |s| ==> IsStripSpace(s[i])
  }

  /** The characters of `[[:space:]]`, which ActiveSupport's `blank?` uses for strings (Unicode White_Space). */
  predicate IsBlankSpace(c: char) {
    || ('\t' <= c <= '\r') || c == ' '
    || c as int == 0x85 || c as int == 0xA0 || c as int == 0x1680
    || (0x2000 <= c as int <= 0x200A)
    || c as int == 0x2028 || c as int == 0x2029 || c as int == 0x202F || c as int == 0x205F
    || c as int == 0x3000
  }

  /** `String#blank?`: empty or made of white space only. */
  predicate IsBlank(s: string) {
    forall i :: 0 <= i < |s| ==> IsBlankSpace(s[i])
  }

  /** `Object#presence` on an optional string: nil stays nil, a blank string becomes nil. */
  function Presence(s: Option<string>): (r: Option<string>)
    ensures r.Some? <==> s.Some? && !IsBlank(s.value)
    ensures r.Some? ==> r == s
  {
    if s.Some? && !IsBlank(s.value) then s else None
  }

  /** `String#lstrip`. */
  function TrimStart(s: string): (r: string)
    ensures |r| <= |s| && r == s[|s| - |r|..]
    ensures forall i :: 0 <= i < |s| - |r| ==> IsStripSpace(s[i])
    ensures r == [] || !IsStripSpace(r[0])
  {
    if s != [] && IsStripSpace(s[0]) then TrimStart(s[1..]) else s
  }

  /** `String#rstrip`. */
  function TrimEnd(s: string): (r: string)
    ensures |r| <= |s| && r == s[..|r|]
    ensures forall i :: |r| <= i < |s| ==> IsStripSpace(s[i])
    ensures r == [] || !IsStripSpace(r[|r| - 1])
  {
    if s != [] && IsStripSpace(s[|s| - 1]) then TrimEnd(s[..|s| - 1]) else s
  }

  /** `String#strip`. */
  function Strip(s: string): (r: string)
    ensures |r| <= |s|
    ensures r == [] || (!IsStripSpace(r[0]) && !IsStripSpace(r[|r| - 1]))
  {
    TrimEnd(TrimStart(s))
  }

  lemma {:induction false} TrimStartSkipsSpace(w: string, u: string)
    requires AllStripSpace(w)
    ensures TrimStart(w + u) == TrimStart(u)
    decreases |w|
  {
    if w != [] {
      assert (w + u)[0] == w[0] && IsStripSpace(w[0]);
      assert (w + u)[1..] == w[1..] + u;
      TrimStartSkipsSpace(w[1..], u);
    } else {
      assert w + u == u;
    }
  }

  lemma {:induction false} TrimEndSkipsSpace(u: string, w: string)
    requires AllStripSpace(w)
    ensures TrimEnd(u + w) == TrimEnd(u)
    decreases |w|
  {
    if w != [] {
      assert (u + w)[|u + w| - 1] == w[|w| - 1] && IsStripSpace(w[|w| - 1]);
      assert (u + w)[..|u + w| - 1] == u + w[..|w| - 1];
      TrimEndSkipsSpace(u, w[..|w| - 1]);
    } else {
      assert u + w == u;
    }
  }

  lemma {:induction false} TrimStartAppend(t: string, w: string)
    ensures TrimStart(t + w) == if TrimStart(t) == [] then TrimStart(w) else TrimStart(t) + w
    decreases |t|
  {
    if t == [] {
      assert t + w == w;
    } else if IsStripSpace(t[0]) {
      assert (t + w)[1..] == t[1..] + w;
      TrimStartAppend(t[1..], w);
    }
  }

  /** White space around a token never survives `strip`. */
  lemma StripIgnoresPadding(w1: string, t: string, w2: string)
    requires AllStripSpace(w1) && AllStripSpace(w2)
    ensures Strip(w1 + t + w2) == Strip(t)
  {
    assert w1 + t + w2 == w1 + (t + w2);
    TrimStartSkipsSpace(w1, t + w2);
    TrimStartAppend(t, w2);
    if TrimStart(t) == [] {
      TrimStartSkipsSpace(w2, []);
      assert w2 + [] == w2;
    } else {
      TrimEndSkipsSpace(TrimStart(t), w2);
    }
  }

  /** A string without surrounding white space is its own `strip`. */
  lemma StripTrimmed(s: string)
    requires s == [] || (!IsStripSpace(s[0]) && !IsStripSpace(s[|s| - 1]))
    ensures Strip(s) == s
  {
  }

  /** `strip` keeps a last character that is not white space. */
  lemma StripKeepsLast(s: string)
    requires s != [] && !IsStripSpace(s[|s| - 1])
    ensures Strip(s) != [] && Strip(s)[|Strip(s)| - 1] == s[|s| - 1]
  {
    var r := TrimStart(s);
    assert r[|r| - 1] == s[|s| - 1];
    assert TrimEnd(r) == r;
  }

  /** The number of occurrences of `c` in `s`. */
  function Count(c: char, s: string): nat {
    if s == [] then 0 else (if s[0] == c then 1 else 0) + Count(c, s[1..])
  }

  lemma {:induction false} CountAppend(c: char, a: string, b: string)
    ensures Count(c, a + b) == Count(c, a) + Count(c, b)
    decreases |a|
  {
    if a == [] {
      assert a + b == b;
    } else {
      assert (a + b)[1..] == a[1..] + b;
      CountAppend(c, a[1..], b);
    }
  }

  lemma {:induction false} CountAbsent(c: char, s: string)
    requires c !in s
    ensures Count(c, s) == 0
    decreases |s|
  {
    if s != [] {
      CountAbsent(c, s[1..]);
    }
  }

  lemma {:induction false} CountOfSpace(c: char, w: string)
    requires AllStripSpace(w) && !IsStripSpace(c)
    ensures Count(c, w) == 0
  {
    CountAbsent(c, w);
  }

  /** `strip` removes only white space, so it keeps every other character, dots and dashes included. */
  lemma StripKeepsCount(c: char, s: string)
    requires !IsStripSpace(c)
    ensures Count(c, Strip(s)) == Count(c, s)
  {
    TrimStartKeepsCount(c, s);
    TrimEndKeepsCount(c, TrimStart(s));
  }

  lemma TrimStartKeepsCount(c: char, s: string)
    requires !IsStripSpace(c)
    ensures Count(c, TrimStart(s)) == Count(c, s)
  {
    var l := TrimStart(s);
    var w := s[..|s| - |l|];
    assert s == w + l;
    CountAppend(c, w, l);
    CountOfSpace(c, w);
  }

  lemma TrimEndKeepsCount(c: char, l: string)
    requires !IsStripSpace(c)
    ensures Count(c, TrimEnd(l)) == Count(c, l)
  {
    var r := TrimEnd(l);
    var w := l[|r|..];
    assert l == r + w;
    CountAppend(c, r, w);
    CountOfSpace(c, w);
  }

  /** The first index of `c` in `s`, nil when it does not occur (`String#index`). */
  function IndexOf(s: string, c: char): (r: Option<nat>)
    ensures r.Some? ==> r.value < |s| && s[r.value] == c && c !in s[..r.value]
    ensures r.None? ==> c !in s
  {
    if s == [] then None
    else if s[0] == c then Some(0)
    else match IndexOf(s[1..], c)
      case None => None
      case Some(i) => assert s[..i + 1] == [s[0]] + s[1..][..i]; Some(i + 1)
  }

  /** Every field of `s` between separators, empty fields included. */
  function SplitAll(s: string, sep: char): (r: seq<string>)
    ensures |r| >= 1
    ensures forall i :: 0 <= i < |r| ==> sep !in r[i]
    decreases |s|
  {
    match IndexOf(s, sep)
    case None => [s]
    case Some(i) => [s[..i]] + SplitAll(s[i + 1..], sep)
  }

  /** `Array#join(sep)` over strings. */
  function Join(parts: seq<string>, sep: char): string {
    if |parts| == 0 then ""
    else if |parts| == 1 then parts[0]
    else parts[0] + [sep] + Join(parts[1..], sep)
  }

  /** Joining the fields back with the separator gives the original string. */
  lemma {:induction false} JoinSplitAll(s: string, sep: char)
    ensures Join(SplitAll(s, sep), sep) == s
    decreases |s|
  {
    match IndexOf(s, sep)
    case None =>
    case Some(i) =>
      var rest := SplitAll(s[i + 1..], sep);
      assert SplitAll(s, sep) == [s[..i]] + rest;
      assert ([s[..i]] + rest)[1..] == rest;
      JoinSplitAll(s[i + 1..], sep);
      assert s == s[..i] + [sep] + s[i + 1..];
  }

  /** There is one more field than separators. */
  lemma {:induction false} SplitAllCount(s: string, sep: char)
    ensures |SplitAll(s, sep)| == Count(sep, s) + 1
    decreases |s|
  {
    match IndexOf(s, sep)
    case None =>
      CountAbsent(sep, s);
    case Some(i) =>
      SplitAllCount(s[i + 1..], sep);
      assert s == s[..i] + ([sep] + s[i + 1..]);
      CountAppend(sep, s[..i], [sep] + s[i + 1..]);
      CountAbsent(sep, s[..i]);
      assert ([sep] + s[i + 1..])[1..] == s[i + 1..];
  }

  /** The last field is the text after the last separator, so it is non-empty when `s` does not end with one. */
  lemma {:induction false} SplitAllLastNonEmpty(s: string, sep: char)
    requires s != [] && s[|s| - 1] != sep
    ensures SplitAll(s, sep)[|SplitAll(s, sep)| - 1] != []
    decreases |s|
  {
    match IndexOf(s, sep)
    case None =>
    case Some(i) =>
      assert s[i + 1..] != [] && s[i + 1..][|s[i + 1..]| - 1] == s[|s| - 1];
      SplitAllLastNonEmpty(s[i + 1..], sep);
  }

  /** Appending a separator and a field without separators appends exactly that field. */
  lemma {:induction false} SplitAllAppend(x: string, sep: char, b: string)
    requires sep !in b
    ensures SplitAll(x + [sep] + b, sep) == SplitAll(x, sep) + [b]
    decreases |x|
  {
    var s := x + [sep] + b;
    assert SplitAll(b, sep) == [b] by {
      assert IndexOf(b, sep).None?;
    }
    match IndexOf(x, sep)
    case None =>
      assert IndexOf(s, sep) == Some(|x|) by {
        assert s[..|x|] == x;
        assert s[|x|] == sep;
        IndexOfFirst(s, sep, |x|);
      }
      assert s[..|x|] == x && s[|x| + 1..] == b;
      assert SplitAll(s, sep) == [x] + SplitAll(b, sep);
      assert SplitAll(x, sep) == [x];
    case Some(i) =>
      assert IndexOf(s, sep) == Some(i) by {
        assert s[..i] == x[..i];
        IndexOfFirst(s, sep, i);
      }
      assert s[i + 1..] == x[i + 1..] + [sep] + b;
      assert s[..i] == x[..i];
      assert SplitAll(s, sep) == [x[..i]] + SplitAll(x[i + 1..] + [sep] + b, sep);
      assert SplitAll(x, sep) == [x[..i]] + SplitAll(x[i + 1..], sep);
      SplitAllAppend(x[i + 1..], sep, b);
  }

  /** `IndexOf` finds the first occurrence. */
  lemma IndexOfFirst(s: string, c: char, i: nat)
    requires i < |s| && s[i] == c && c !in s[..i]
    ensures IndexOf(s, c) == Some(i)
  {
    var r := IndexOf(s, c);
    assert r.Some? by {
      assert c in s;
    }
    assert !(r.value < i) && !(i < r.value);
  }

  /** The list without its trailing empty strings. */
  function DropTrailingEmpty(ps: seq<string>): (r: seq<string>)
    ensures |r| <= |ps| && r == ps[..|r|]
    ensures r == [] || r[|r| - 1] != []
    ensures forall i :: |r| <= i < |ps| ==> ps[i] == []
  {
    if |ps| > 0 && ps[|ps| - 1] == [] then DropTrailingEmpty(ps[..|ps| - 1]) else ps
  }

  /** `String#split(sep)` without a limit: trailing empty fields are removed, so `""` splits into `[]`. */
  function RubySplit(s: string, sep: char): (r: seq<string>)
    ensures forall i :: 0 <= i < |r| ==> sep !in r[i]
    ensures s == [] ==> r == []
  {
    DropTrailingEmpty(SplitAll(s, sep))
  }

  /** When `s` does not end with the separator, `split` keeps every field. */
  lemma RubySplitKeepsFields(s: string, sep: char)
    requires s != [] && s[|s| - 1] != sep
    ensures RubySplit(s, sep) == SplitAll(s, sep)
  {
    SplitAllLastNonEmpty(s, sep);
  }

  /**
   * `String#split(sep, 2)`: the empty string gives no field at all; otherwise the text before the
   * first separator and, when there is one, everything after it.
   */
  function SplitOnce(s: string, sep: char): (r: seq<string>)
    ensures s == [] <==> r == []
    ensures |r| <= 2
    ensures |r| == 1 ==> r[0] == s && sep !in s
    ensures |r| == 2 ==> sep !in r[0] && s == r[0] + [sep] + r[1]
  {
    if s == [] then []
    else match IndexOf(s, sep)
      case None => [s]
      case Some(i) => assert s == s[..i] + [sep] + s[i + 1..]; [s[..i], s[i + 1..]]
  }

  /**
   * What `(.*)$` captures: `.` does not match a line feed and `$` matches before one,
   * so the capture ends at the first line break.
   */
  function FirstLine(s: string): (r: string)
    ensures '\n' !in r
    ensures |r| <= |s| && r == s[..|r|]
    ensures '\n' !in s ==> r == s
    ensures |r| < |s| ==> s[|r|] == '\n'
  {
    match IndexOf(s, '\n')
    case None => s
    case Some(i) => s[..i]
  }

  /** `String#start_with?`. */
  predicate StartsWith(s: string, prefix: string) {
    |prefix| <= |s| && s[..|prefix|] == prefix
  }

  /** The first index at which `pattern` occurs in `s`. */
  function FindSub(s: string, pattern: string): (r: Option<nat>)
    ensures r.Some? ==> r.value + |pattern| <= |s| && StartsWith(s[r.value..], pattern)
    ensures r.Some? ==> forall j :: 0 <= j < r.value ==> !StartsWith(s[j..], pattern)
    ensures r.None? ==> forall j :: 0 <= j <= |s| ==> !StartsWith(s[j..], pattern)
    decreases |s|
  {
    if StartsWith(s, pattern) then Some(0)
    else if s == [] then None
    else
      var inner := FindSub(s[1..], pattern);
      assert forall j :: 1 <= j <= |s| ==> s[j..] == s[1..][j - 1..];
      match inner
      case None => None
      case Some(i) => Some(i + 1)
  }

  /** `String#sub(pattern, "")` with a literal pattern: the first occurrence is removed. */
  function Sub(s: string, pattern: string): string {
    match FindSub(s, pattern)
    case None => s
    case Some(i) => s[..i] + s[i + |pattern|..]
  }

  /** No element occurs twice. */
  predicate Distinct<T(==)>(s: seq<T>) {
    forall i, j :: 0 <= i < j < |s| ==> s[i] != s[j]
  }

  /**
   * `keys` followed by the elements of `incoming` that are not yet present, each the first
   * time it is seen: the `find`-else-append loop the core writes by hand, and `Array#uniq`
   * when `keys` is empty.
   */
  function AppendNew(keys: seq<string>, incoming: seq<string>): (r: seq<string>)
    ensures |keys| <= |r| && r[..|keys|] == keys
    ensures forall x :: x in r <==> x in keys || x in incoming
    ensures forall i :: |keys| <= i < |r| ==> r[i] !in keys && r[i] in incoming
    ensures Distinct(keys) ==> Distinct(r)
    decreases |incoming|
  {
    if incoming == [] then keys
    else
      var next := if incoming[0] in keys then keys else keys + [incoming[0]];
      var r := AppendNew(next, incoming[1..]);
      assert r[..|keys|] == next[..|keys|];
      assert forall x :: x in incoming <==> x == incoming[0] || x in incoming[1..];
      r
  }

  /** Adding two lists of keys one after the other is adding their concatenation. */
  lemma {:induction false} AppendNewConcat(keys: seq<string>, a: seq<string>, b: seq<string>)
    ensures AppendNew(keys, a + b) == AppendNew(AppendNew(keys, a), b)
    decreases |a|
  {
    if a == [] {
      assert a + b == b;
    } else {
      var next := if a[0] in keys then keys else keys + [a[0]];
      assert (a + b)[0] == a[0] && (a + b)[1..] == a[1..] + b;
      AppendNewConcat(next, a[1..], b);
    }
  }

  /** The position of the first occurrence of `x` in `s`. */
  function FirstIndex<T(==)>(s: seq<T>, x: T): (i: nat)
    requires x in s
    ensures i < |s| && s[i] == x && x !in s[..i]
  {
    if s[0] == x then 0
    else
      var i := FirstIndex(s[1..], x);
      assert s[..i + 1] == [s[0]] + s[1..][..i];
      i + 1
  }

  /** The appended elements keep the order in which `incoming` first mentions them. */
  lemma {:induction false} AppendNewKeepsOrder(keys: seq<string>, incoming: seq<string>, a: nat, b: nat)
    requires |keys| <= a < b < |AppendNew(keys, incoming)|
    ensures FirstIndex(incoming, AppendNew(keys, incoming)[a]) < FirstIndex(incoming, AppendNew(keys, incoming)[b])
    decreases |incoming|
  {
    var r := AppendNew(keys, incoming);
    var next := if incoming[0] in keys then keys else keys + [incoming[0]];
    assert r == AppendNew(next, incoming[1..]);
    if incoming[0] in keys {
      AppendNewKeepsOrder(next, incoming[1..], a, b);
      assert r[a] != incoming[0] && r[b] != incoming[0];
    } else if a == |keys| {
      assert r[a] == incoming[0];
      assert r[b] != incoming[0] by {
        assert r[b] !in next;
      }
    } else {
      AppendNewKeepsOrder(next, incoming[1..], a, b);
      assert r[a] !in next && r[b] !in next;
    }
  }
}
