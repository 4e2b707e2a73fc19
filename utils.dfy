/** Helpers shared by the pages. */
module Utils {
  /** `id_factory(page)(x)`: a component id namespaced by its page, `f"{page}-{x}"`. */
  function IdFactory(page: string, x: string): (id: string)
    ensures |id| == |page| + 1 + |x|
  {
    page + "-" + x
  }

  /** Every id of a page starts with the page name and a dash, and ends with the id
      asked for. */
  lemma IdFactoryShape(page: string, x: string)
    ensures IdFactory(page, x)[..|page| + 1] == page + "-"
    ensures IdFactory(page, x)[|page| + 1..] == x
  {
  }

  /** Within one page, distinct ids stay distinct. */
  lemma IdFactoryInjective(page: string, x: string, y: string)
    requires IdFactory(page, x) == IdFactory(page, y)
    ensures x == y
  {
    IdFactoryShape(page, x);
    IdFactoryShape(page, y);
  }
}
