/**
 * Properties of the crossover base contract that relate several calls of
 * `Cross`, or that quantify over every possible parent list.
 */
module CrossoverProperties {
  import opened Wrappers
  import opened Crossovers

  /** `parents.Count` parents, all of the same kind and the same length. */
  function Uniform(count: nat, kindName: string, length: int): (ps: seq<Chromosome>)
    ensures |ps| == count
    ensures forall i :: 0 <= i < count ==> ps[i] == Chromosome(kindName, length)
  {
    seq(count, _ => Chromosome(kindName, length))
  }

  /**
   * Only the first parent's length is checked: two lists of the same size
   * that agree on their first entry get the same verdict, whatever the other
   * parents are.
   */
  lemma OnlyFirstParentChecked(c: Crossover, ps: seq<Chromosome>, qs: seq<Chromosome>)
    requires |ps| == |qs| && (|ps| > 0 ==> ps[0] == qs[0])
    ensures Cross(c, Some(ps)).Failure? == Cross(c, Some(qs)).Failure?
    ensures Cross(c, Some(ps)).Failure? ==> Cross(c, Some(ps)) == Cross(c, Some(qs))
  {
  }

  /**
   * In particular a later parent shorter than the minimum is let through
   * when the first one is long enough.
   */
  lemma ShortLaterParentAccepted(c: Crossover, ps: seq<Chromosome>, i: nat)
    requires |ps| == c.parentsNumber && 0 < i < |ps|
    requires ps[i].length < c.minChromosomeLength <= ps[0].length
    ensures Cross(c, Some(ps)).Offspring?
  {
  }

  /**
   * The count is checked before the length: three parents for a crossover
   * that needs two, with a first parent too short, reports the count.
   */
  lemma CountCheckedBeforeLength(perform: seq<Chromosome> -> seq<Chromosome>)
    ensures var c := Create(2, 2, 4, perform);
            Cross(c, Some(Uniform(3, "Short", 3))) == Failure(WrongParentCount)
  {
  }

  /** The base class stores `IsOrdered` but never reads it. */
  lemma IsOrderedNotRead(c: Crossover, ordered: bool, parents: Option<seq<Chromosome>>)
    ensures Cross(SetOrdered(c, ordered), parents) == Cross(c, parents)
  {
  }

  /**
   * The second assignment of the parent and children numbers in the
   * two-argument constructor changes nothing: it builds exactly what the
   * three-argument constructor builds with the default minimum.
   */
  lemma DefaultConstructorChains(parentsNumber: int, childrenNumber: int,
                                 perform: seq<Chromosome> -> seq<Chromosome>)
    ensures CreateWithDefaultMinLength(parentsNumber, childrenNumber, perform)
            == Create(parentsNumber, childrenNumber, DefaultMinChromosomeLength, perform)
  {
  }

  /**
   * A crossover whose algorithm yields `ChildrenNumber` children for every
   * list the guards accept makes every successful `Cross` yield exactly that many.
   */
  ghost predicate HonoursChildrenNumber(c: Crossover)
  {
    forall ps :: Accepts(c, Some(ps)) ==> |c.perform(ps)| == c.childrenNumber
  }

  lemma ChildrenNumberKept(c: Crossover, parents: Option<seq<Chromosome>>)
    requires HonoursChildrenNumber(c) && Cross(c, parents).Offspring?
    ensures |Cross(c, parents).children| == c.childrenNumber
  {
  }

  /** Some parent list gets through `Cross` exactly when at least one parent is declared. */
  lemma CanSucceedIff(c: Crossover)
    ensures (exists ps :: Cross(c, Some(ps)).Offspring?) <==> c.parentsNumber >= 1
  {
    if c.parentsNumber >= 1 {
      var ps := Uniform(c.parentsNumber, "Chromosome", c.minChromosomeLength);
      assert Cross(c, Some(ps)).Offspring?;
    }
  }

  /**
   * Some parent list is reported too short exactly when at least one parent
   * is declared: lengths are unconstrained integers, so a first parent one
   * gene short of any minimum exists.
   */
  lemma CanBeTooShortIff(c: Crossover)
    ensures (exists ps :: Cross(c, Some(ps)).Failure? && Cross(c, Some(ps)).error.TooShort?)
            <==> c.parentsNumber >= 1
  {
    if c.parentsNumber >= 1 {
      var ps := Uniform(c.parentsNumber, "Chromosome", c.minChromosomeLength - 1);
      assert Cross(c, Some(ps)).error.TooShort?;
    }
  }

  /** The index fault on the first parent happens for some list exactly when no parent is declared. */
  lemma CanMissFirstParentIff(c: Crossover)
    ensures (exists ps :: Cross(c, Some(ps)) == Failure(FirstParentMissing)) <==> c.parentsNumber == 0
  {
    if c.parentsNumber == 0 {
      assert Cross(c, Some([])) == Failure(FirstParentMissing);
    }
  }

  /** Whatever the declarations, some list has the wrong number of parents. */
  lemma CanMiscountAlways(c: Crossover)
    ensures exists ps :: Cross(c, Some(ps)) == Failure(WrongParentCount)
  {
    var ps := Uniform(if c.parentsNumber == 0 then 1 else 0, "Chromosome", 0);
    assert Cross(c, Some(ps)) == Failure(WrongParentCount);
  }
}
