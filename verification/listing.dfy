/**
  `GET /api/files?parent=p`: the rows whose `parentFolder` is `p`, with the
  root as the default parent.
 */
module Listing {
  import opened Catalog

  /** The rows the listing query selects, keyed by id. */
  function List(t: Table, query: Option<string>): (r: Table)
    ensures forall id :: id in r <==> id in t && t[id].parentFolder == ParentOrRoot(query)
    ensures forall id :: id in r ==> r[id] == t[id]
  {
    var p := ParentOrRoot(query);
    map id | id in t && t[id].parentFolder == p :: t[id]
  }

  /** A missing, empty and explicit root query all list the same rows. */
  lemma ListDefaultsToRoot(t: Table)
    ensures List(t, None) == List(t, Some("")) == List(t, Some(Root))
  {
  }

  /**
    Listings partition the table: a row with a non-empty parent is listed
    under that parent's query and under no query that resolves to another
    parent.
   */
  lemma ListPartitions(t: Table, id: Id, query: Option<string>)
    requires id in t && t[id].parentFolder != ""
    ensures id in List(t, Some(t[id].parentFolder))
    ensures id in List(t, query) <==> ParentOrRoot(query) == t[id].parentFolder
  {
  }

  /** Listings of distinct parents share no row. */
  lemma ListsDisjoint(t: Table, q1: Option<string>, q2: Option<string>)
    requires ParentOrRoot(q1) != ParentOrRoot(q2)
    ensures List(t, q1).Keys !! List(t, q2).Keys
  {
  }
}
