/** The filter of the memo list: everything, one tag, or a text search. */
module MemoFilters {

  /** A sealed class with an object and two data classes: equality is structural. */
  datatype MemoFilter = None | Tag(tag: string) | Search(query: string)

  lemma ExactlyThreeVariants(f: MemoFilter)
    ensures f == None || (exists t :: f == Tag(t)) || (exists q :: f == Search(q))
  {
    match f
    case None =>
    case Tag(t) => assert f == Tag(t);
    case Search(q) => assert f == Search(q);
  }

  lemma NoneIsUnique(f: MemoFilter, g: MemoFilter)
    requires f.None? && g.None?
    ensures f == g
  {
  }

  lemma TagEquality(a: string, b: string)
    ensures Tag(a) == Tag(b) <==> a == b
  {
  }

  lemma SearchEquality(a: string, b: string)
    ensures Search(a) == Search(b) <==> a == b
  {
  }

  lemma TagIsNotSearch(s: string)
    ensures Tag(s) != Search(s)
  {
  }
}
