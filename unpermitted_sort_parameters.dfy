/**
 * `Errors::UnpermittedSortParameters`: the English message listing every sort attribute a
 * request asked for that the query does not permit.
 */
module Errors {
  import opened Text

  /** `Array#to_sentence` with ActiveSupport's English connectors: `", "`, `" and "`, `", and "`. */
  function ToSentence(words: seq<string>): string {
    if |words| == 0 then ""
    else if |words| == 1 then words[0]
    else if |words| == 2 then words[0] + " and " + words[1]
    else CommaList(words[..|words| - 1]) + ", and " + words[|words| - 1]
  }

  /** `words.join(", ")`. */
  function CommaList(words: seq<string>): string {
    if |words| == 0 then ""
    else if |words| == 1 then words[0]
    else words[0] + ", " + CommaList(words[1..])
  }

  /**
   * What follows the `i`-th of `n` words in an English list: nothing after the last word,
   * `" and "` between the two words of a pair, `", and "` before the last of three or
   * more words, and `", "` elsewhere.
   */
  function Connector(i: nat, n: nat): string {
    if i + 1 >= n then ""
    else if n == 2 then " and "
    else if i + 2 == n then ", and "
    else ", "
  }

  /** The list spelled word by word from index `i`: each word followed by its connector. */
  function Spelled(words: seq<string>, i: nat): string
    decreases |words| - i
  {
    if i >= |words| then "" else words[i] + Connector(i, |words|) + Spelled(words, i + 1)
  }

  /**
   * `to_sentence` writes the words in their input order, each followed by its connector:
   * `a`, `a and b`, `a, b, and c`.
   */
  lemma ToSentenceSpelled(words: seq<string>)
    ensures ToSentence(words) == Spelled(words, 0)
  {
    var n := |words|;
    if n == 1 {
      assert Spelled(words, 1) == "";
    } else if n == 2 {
      assert Spelled(words, 2) == "";
      assert Spelled(words, 1) == words[1];
    } else if n >= 3 {
      CommaListSpelled(words, 0);
      assert words[0..n - 1] == words[..n - 1];
    }
  }

  lemma {:induction false} CommaListSpelled(words: seq<string>, i: nat)
    requires |words| >= 3 && i <= |words| - 2
    ensures CommaList(words[i..|words| - 1]) + ", and " + words[|words| - 1] == Spelled(words, i)
    decreases |words| - i
  {
    var n := |words|;
    if i == n - 2 {
      assert words[i..n - 1] == [words[i]];
      assert Spelled(words, n - 1) == words[n - 1];
    } else {
      CommaListSpelled(words, i + 1);
      assert words[i..n - 1][1..] == words[i + 1..n - 1];
    }
  }

  /** `String#pluralize(count)` for a noun phrase that takes a plain `s`: singular only for a count of one. */
  function Pluralize(phrase: string, count: nat): string {
    if count == 1 then phrase else phrase + "s"
  }

  /** `UnpermittedSortParameters.new(unpermitted_parameters).message`. */
  function Message(names: seq<string>): (m: string)
    ensures StartsWith(m, ToSentence(names))
  {
    var verb := if |names| == 1 then "is not a" else "are not";
    ToSentence(names) + " " + verb + " " + Pluralize("permitted sort attribute", |names|)
  }

  /**
   * The message ends with the plural noun exactly when the count is not one, and then says
   * "are not"; with one name it says "is not a" and ends with the singular noun.
   */
  lemma MessageNumber(names: seq<string>)
    ensures |names| == 1 ==> Message(names) == ToSentence(names) + " is not a permitted sort attribute"
    ensures |names| != 1 ==> Message(names) == ToSentence(names) + " are not permitted sort attributes"
    ensures Message(names)[|Message(names)| - 1] == 's' <==> |names| != 1
  {
    if |names| == 1 {
      MessageSingular(names);
    } else {
      MessagePlural(names);
    }
  }

  lemma MessageSingular(names: seq<string>)
    requires |names| == 1
    ensures Message(names) == ToSentence(names) + " is not a permitted sort attribute"
  {
    var s := ToSentence(names);
    SingularTail();
    Associate(s, " ", "is not a", " ", "permitted sort attribute");
  }

  lemma MessagePlural(names: seq<string>)
    requires |names| != 1
    ensures Message(names) == ToSentence(names) + " are not permitted sort attributes"
  {
    var s := ToSentence(names);
    PluralTail();
    Associate(s, " ", "are not", " ", "permitted sort attributes");
  }

  lemma SingularTail()
    ensures " " + "is not a" + " " + "permitted sort attribute" == " is not a permitted sort attribute"
  {
  }

  lemma PluralTail()
    ensures Pluralize("permitted sort attribute", 2) == "permitted sort attributes"
    ensures " " + "are not" + " " + "permitted sort attributes" == " are not permitted sort attributes"
  {
  }

  lemma Associate(s: string, a: string, b: string, c: string, d: string)
    ensures s + a + b + c + d == s + (a + b + c + d)
  {
  }

  /** The names appear in the message in input order, separated by the English connectors. */
  lemma MessageLists(names: seq<string>)
    ensures StartsWith(Message(names), Spelled(names, 0))
  {
    ToSentenceSpelled(names);
    var s := ToSentence(names);
    assert Message(names)[..|s|] == s;
  }}
