// The fixed question catalog of the risk questionnaire and the session keys
// derived from question ids.

module Catalog {

  /** A catalog entry: its stable id and its option letters in display order.
      Prompt and option texts carry no behaviour and are not modelled. */
  datatype Question = Question(id: nat, options: seq<char>)

  /** The fifteen questions, in the order they are asked. */
  const Questions: seq<Question> := [
    Question(1, "abcd"),
    Question(2, "abcd"),
    Question(3, "abcd"),
    Question(4, "abc"),
    Question(5, "abc"),
    Question(6, "abcd"),
    Question(7, "abcd"),
    Question(8, "abcd"),
    Question(9, "ab"),
    Question(10, "ab"),
    Question(11, "abcd"),
    Question(12, "abc"),
    Question(13, "abcd"),
    Question(14, "abcd"),
    Question(15, "abcd")
  ]

  /** The j-th option letter: 'a', 'b', ... */
  function Letter(j: nat): char
    requires j < 26
  {
    (('a' as int) + j) as char
  }

  /** Options lettered consecutively from 'a', starting at letter `from`. */
  predicate LetteredFrom(options: seq<char>, from: nat)
    decreases |options|
  {
    options == [] || (from < 26 && options[0] == Letter(from) && LetteredFrom(options[1..], from + 1))
  }

  /** Every entry from position i on has id position + 1 and two to four
      options lettered from 'a'. */
  predicate WellFormedFrom(i: nat)
    decreases |Questions| - i
  {
    i >= |Questions| ||
    (Questions[i].id == i + 1 && 2 <= |Questions[i].options| <= 4 &&
     LetteredFrom(Questions[i].options, 0) && WellFormedFrom(i + 1))
  }

  lemma {:induction false} LetteredFromAt(options: seq<char>, from: nat, j: nat)
    requires LetteredFrom(options, from)
    requires j < |options|
    ensures from + j < 26 && options[j] == Letter(from + j)
  {
    if j > 0 {
      LetteredFromAt(options[1..], from + 1, j - 1);
    }
  }

  lemma {:induction false} WellFormedAt(i: nat, k: nat)
    requires WellFormedFrom(i)
    requires i <= k < |Questions|
    ensures Questions[k].id == k + 1
    ensures 2 <= |Questions[k].options| <= 4 && LetteredFrom(Questions[k].options, 0)
    decreases k - i
  {
    if i < k {
      WellFormedAt(i + 1, k);
    }
  }

  /** The catalog has fifteen entries; entry i has id i + 1 and two to four
      options lettered 'a', 'b', ... in order. */
  lemma CatalogShape()
    ensures |Questions| == 15
    ensures forall i :: 0 <= i < |Questions| ==> Questions[i].id == i + 1
    ensures forall i :: 0 <= i < |Questions| ==> 2 <= |Questions[i].options| <= 4
    ensures forall i, j :: 0 <= i < |Questions| && 0 <= j < |Questions[i].options| ==>
              j < 26 && Questions[i].options[j] == Letter(j)
  {
    assert WellFormedFrom(0);
    forall i | 0 <= i < |Questions|
      ensures Questions[i].id == i + 1 && 2 <= |Questions[i].options| <= 4
      ensures forall j :: 0 <= j < |Questions[i].options| ==> j < 26 && Questions[i].options[j] == Letter(j)
    {
      WellFormedAt(0, i);
      forall j | 0 <= j < |Questions[i].options|
        ensures j < 26 && Questions[i].options[j] == Letter(j)
      {
        LetteredFromAt(Questions[i].options, 0, j);
      }
    }
  }

  /** The decimal digit for d. */
  function Digit(d: nat): char
    requires d < 10
  {
    (('0' as int) + d) as char
  }

  /** Python's str() of a non-negative int: its decimal digits, most significant first. */
  function Decimal(n: nat): (s: string)
    ensures 1 <= |s|
    ensures |s| == 1 <==> n < 10
    ensures s[|s| - 1] == Digit(n % 10)
  {
    if n < 10 then [Digit(n)] else Decimal(n / 10) + [Digit(n % 10)]
  }

  /** Distinct numbers have distinct decimal strings. */
  lemma {:induction false} DecimalInjective(a: nat, b: nat)
    requires Decimal(a) == Decimal(b)
    ensures a == b
  {
    if a >= 10 {
      var sa, sb := Decimal(a), Decimal(b);
      assert sa[..|sa| - 1] == Decimal(a / 10);
      assert sb[..|sb| - 1] == Decimal(b / 10);
      DecimalInjective(a / 10, b / 10);
    }
  }

  /** The session key of the question at position i: str(id). */
  function Key(i: int): string
    requires 0 <= i < |Questions|
  {
    Decimal(Questions[i].id)
  }

  /** Questions at different positions are stored under different keys. */
  lemma KeyInjective(i: int, j: int)
    requires 0 <= i < |Questions| && 0 <= j < |Questions|
    requires Key(i) == Key(j)
    ensures i == j
  {
    CatalogShape();
    DecimalInjective(Questions[i].id, Questions[j].id);
  }
}
