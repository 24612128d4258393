/** Small facts about sets that the verifier does not always find by itself. */
module Collections {

  lemma Pick<T>(s: set<T>) returns (x: T)
    requires s != {}
    ensures x in s
  {
    x :| x in s;
  }
}
