/** `PopulationComparator`: the comparator that ranking sorts with. It
    compares populations with `Integer.compare`, so it orders ASCENDING,
    although the class comment says descending. */
module PopulationComparator {
  import opened Places

  /** `Integer.compare(p1.getPopulation(), p2.getPopulation())`. */
  function Compare(p1: Place, p2: Place): (r: int)
    requires p1.IsPopulated() && p2.IsPopulated()
    reads p1, p2
    ensures r < 0 <==> p1.population < p2.population
    ensures r == 0 <==> p1.population == p2.population
    ensures r > 0 <==> p1.population > p2.population
    ensures -1 <= r <= 1
  {
    if p1.GetPopulation() < p2.GetPopulation() then -1
    else if p1.GetPopulation() == p2.GetPopulation() then 0
    else 1
  }

  /** The comparator is a total preorder on populated places: reflexive,
      antisymmetric in sign, transitive, and any two places compare. */
  lemma CompareIsTotalPreorder(a: Place, b: Place, c: Place)
    requires a.IsPopulated() && b.IsPopulated() && c.IsPopulated()
    ensures Compare(a, a) == 0
    ensures Compare(a, b) == -Compare(b, a)
    ensures Compare(a, b) <= 0 && Compare(b, c) <= 0 ==> Compare(a, c) <= 0
    ensures Compare(a, b) <= 0 || Compare(b, a) <= 0
  {
  }
}
