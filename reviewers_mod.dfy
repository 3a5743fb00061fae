/**
 * The verdict algebra shared by every reviewer (src/reviewers/mod.rs):
 * the four-level `Answer`, its derived order, the combining operator
 * `choose`, its n-ary form, and the text-matching rule that the
 * description reviewer delegates to.
 */
module Reviewers {
  import opened Wrappers

  /** The verdict of one trigger, or of all of them combined. */
  datatype Answer = Noop | Reject | Accept | ForceAccept

  /** The explicit discriminant of each variant; the derived `Ord` compares these. */
  function Discriminant(a: Answer): nat {
    match a
    case Noop => 0
    case Reject => 10
    case Accept => 90
    case ForceAccept => 100
  }

  /** The derived `<=` on `Answer`. */
  predicate Le(a: Answer, b: Answer) {
    Discriminant(a) <= Discriminant(b)
  }

  /** The derived `<` on `Answer`. */
  predicate Lt(a: Answer, b: Answer) {
    Discriminant(a) < Discriminant(b)
  }

  /** `Ord::max`: the larger of the two under the derived order (the second on a tie). */
  function Max(a: Answer, b: Answer): (r: Answer)
    ensures r == a || r == b
    ensures Le(a, r) && Le(b, r)
  {
    if Lt(b, a) then a else b
  }

  /**
   * `Answer::choose`: a `Reject` on either side wins unless either side is
   * `ForceAccept`; otherwise the larger of the two.
   */
  function Choose(a: Answer, b: Answer): (r: Answer)
    ensures r == a || r == b
    ensures r == Reject <==> (a == Reject || b == Reject) && a != ForceAccept && b != ForceAccept
  {
    if (a == Reject || b == Reject) && (a != ForceAccept && b != ForceAccept) then
      Reject
    else
      Max(a, b)
  }

  /**
   * The precedence under which `Choose` is a plain maximum:
   * Noop < Accept < Reject < ForceAccept.
   */
  function Precedence(a: Answer): nat {
    match a
    case Noop => 0
    case Accept => 1
    case Reject => 2
    case ForceAccept => 3
  }

  /** The larger of two verdicts by `Precedence`, an independent definition of `Choose`. */
  function PrecedenceMax(a: Answer, b: Answer): Answer {
    if Precedence(a) >= Precedence(b) then a else b
  }

  /** The derived order is the declaration order, and it is a strict total order. */
  lemma DerivedOrder()
    ensures Lt(Noop, Reject) && Lt(Reject, Accept) && Lt(Accept, ForceAccept)
    ensures forall a: Answer :: !Lt(a, a)
    ensures forall a: Answer, b: Answer :: Lt(a, b) || a == b || Lt(b, a)
    ensures forall a: Answer, b: Answer, c: Answer :: Lt(a, b) && Lt(b, c) ==> Lt(a, c)
  {
  }

  /** `Precedence` loses no information: distinct verdicts have distinct precedences. */
  lemma PrecedenceInjective(a: Answer, b: Answer)
    ensures Precedence(a) == Precedence(b) ==> a == b
  {
  }

  /** `Choose` is the maximum under `Precedence`. */
  lemma ChooseIsPrecedenceMax(a: Answer, b: Answer)
    ensures Choose(a, b) == PrecedenceMax(a, b)
  {
  }

  /** The cases of `test_choose`. */
  lemma ChooseExamples()
    ensures Choose(Reject, Accept) == Reject
    ensures Choose(Accept, Noop) == Accept
    ensures Choose(Noop, Noop) == Noop
    ensures Choose(Reject, ForceAccept) == ForceAccept
  {
  }

  lemma ChooseCommutative(a: Answer, b: Answer)
    ensures Choose(a, b) == Choose(b, a)
  {
    ChooseIsPrecedenceMax(a, b);
    ChooseIsPrecedenceMax(b, a);
    PrecedenceInjective(a, b);
  }

  lemma ChooseAssociative(a: Answer, b: Answer, c: Answer)
    ensures Choose(Choose(a, b), c) == Choose(a, Choose(b, c))
  {
    ChooseIsPrecedenceMax(a, b);
    ChooseIsPrecedenceMax(b, c);
    ChooseIsPrecedenceMax(Choose(a, b), c);
    ChooseIsPrecedenceMax(a, Choose(b, c));
  }

  lemma ChooseIdempotent(a: Answer)
    ensures Choose(a, a) == a
  {
  }

  /** `Noop` is the identity of `Choose` and `ForceAccept` absorbs everything. */
  lemma ChooseIdentityAndZero(x: Answer)
    ensures Choose(Noop, x) == x && Choose(x, Noop) == x
    ensures Choose(ForceAccept, x) == ForceAccept && Choose(x, ForceAccept) == ForceAccept
  {
  }

  /** `choose` folded left over `acc` followed by `xs`. */
  function ChooseAll(acc: Answer, xs: seq<Answer>): (r: Answer)
    ensures r == acc || r in xs
    decreases |xs|
  {
    if xs == [] then acc else ChooseAll(Choose(acc, xs[0]), xs[1..])
  }

  /**
   * A fold of `Choose` picks, among the seed and the folded verdicts, the one
   * of highest precedence.
   */
  lemma {:induction false} ChooseAllIsMaximum(acc: Answer, xs: seq<Answer>)
    ensures ChooseAll(acc, xs) == acc || ChooseAll(acc, xs) in xs
    ensures Precedence(acc) <= Precedence(ChooseAll(acc, xs))
    ensures forall x :: x in xs ==> Precedence(x) <= Precedence(ChooseAll(acc, xs))
    decreases |xs|
  {
    if xs != [] {
      var next := Choose(acc, xs[0]);
      ChooseIsPrecedenceMax(acc, xs[0]);
      ChooseAllIsMaximum(next, xs[1..]);
      assert xs == [xs[0]] + xs[1..];
    }
  }

  /**
   * The fold depends only on which verdicts occur, not on their order or
   * multiplicity; in particular any permutation of `xs` folds to the same verdict.
   */
  lemma ChooseAllOrderIndependent(acc: Answer, xs: seq<Answer>, ys: seq<Answer>)
    requires forall x :: x in xs <==> x in ys
    ensures ChooseAll(acc, xs) == ChooseAll(acc, ys)
  {
    var r, s := ChooseAll(acc, xs), ChooseAll(acc, ys);
    ChooseAllIsMaximum(acc, xs);
    ChooseAllIsMaximum(acc, ys);
    assert Precedence(r) <= Precedence(s);
    assert Precedence(s) <= Precedence(r);
    PrecedenceInjective(r, s);
  }

  /** Corollary: a permutation of the verdicts folds to the same verdict. */
  lemma ChooseAllPermutation(acc: Answer, xs: seq<Answer>, ys: seq<Answer>)
    requires multiset(xs) == multiset(ys)
    ensures ChooseAll(acc, xs) == ChooseAll(acc, ys)
  {
    forall x
      ensures x in xs <==> x in ys
    {
      assert x in xs <==> x in multiset(xs);
      assert x in ys <==> x in multiset(ys);
    }
    ChooseAllOrderIndependent(acc, xs, ys);
  }

  /** A fold that meets no `Reject` and starts from a non-`Reject` seed never rejects. */
  lemma {:induction false} ChooseAllNoReject(acc: Answer, xs: seq<Answer>)
    requires acc != Reject
    requires forall x :: x in xs ==> x != Reject
    ensures ChooseAll(acc, xs) != Reject
    decreases |xs|
  {
    if xs != [] {
      assert xs[0] in xs;
      assert forall x :: x in xs[1..] ==> x in xs;
      ChooseAllNoReject(Choose(acc, xs[0]), xs[1..]);
    }
  }

  /** Why a text match could not be decided: the pattern does not compile. */
  datatype ReviewError = InvalidPattern(pattern: string)

  /**
   * The regex engine, left uninterpreted: whether a pattern compiles, and
   * whether a compiled pattern matches somewhere in a text (`is_match`,
   * which searches and adds no anchoring).
   */
  datatype RegexEngine = RegexEngine(compiles: string -> bool, isMatch: (string, string) -> bool)

  /** A literal-or-pattern rule over a text, optionally inverted. */
  datatype TextMatch = TextMatch(content: string, regex: bool, inverse: bool)

  /** `TextMatch::matches`: the rule applied to `text`, or the pattern's compile error. */
  function Matches(t: TextMatch, re: RegexEngine, text: string): (r: Result<bool, ReviewError>)
    ensures r.Failure? <==> t.regex && !re.compiles(t.content)
    ensures r.Failure? ==> r.error == InvalidPattern(t.content)
  {
    if t.regex && !re.compiles(t.content) then
      Failure(InvalidPattern(t.content))
    else
      var found := if t.regex then re.isMatch(t.content, text) else text == t.content;
      Success(if t.inverse then !found else found)
  }

  /** Literal mode with no inversion is exact string equality. */
  lemma MatchesLiteral(content: string, re: RegexEngine, text: string)
    ensures Matches(TextMatch(content, false, false), re, text) == Success(text == content)
  {
  }

  /** Pattern mode with no inversion is the engine's search on the unchanged pattern. */
  lemma MatchesPattern(content: string, re: RegexEngine, text: string)
    requires re.compiles(content)
    ensures Matches(TextMatch(content, true, false), re, text) == Success(re.isMatch(content, text))
  {
  }

  /** Flipping `inverse` negates a decided match and keeps a compile error as it is. */
  lemma MatchesInverse(t: TextMatch, re: RegexEngine, text: string)
    ensures Matches(t.(inverse := !t.inverse), re, text) ==
      match Matches(t, re, text)
      case Success(b) => Success(!b)
      case Failure(e) => Failure(e)
  {
  }
}
