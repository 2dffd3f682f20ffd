/**
 GET /services: the inverted index from service names to node ids.
 */
module ServiceIndex {
  import opened Sorting

  /** How often `x` occurs in `s`. */
  function Count(s: seq<string>, x: string): nat {
    multiset(s)[x]
  }

  /** Some node offers service `svc`. */
  ghost predicate Offered(services: map<string, seq<string>>, svc: string) {
    exists id :: id in services && svc in services[id]
  }

  /** `ids` contains each node id as many times as that node's service list contains `svc`. */
  ghost predicate Lists(services: map<string, seq<string>>, svc: string, ids: seq<string>) {
    forall id: string :: Count(ids, id) == if id in services then Count(services[id], svc) else 0
  }

  /** There is a key exactly for each service that some node offers, and its list contains each
      node id as many times as that node's list contains the name. */
  ghost predicate Inverts(services: map<string, seq<string>>, index: map<string, seq<string>>) {
    && (forall svc :: svc in index <==> Offered(services, svc))
    && (forall svc <- index :: Lists(services, svc, index[svc]))
  }

  /** What the endpoint promises about the registered services. */
  ghost predicate IsIndex(services: map<string, seq<string>>, index: map<string, seq<string>>) {
    Inverts(services, index) && forall svc <- index :: Sorted(index[svc])
  }

  /** A sorted list is determined by how often it contains each id. */
  lemma CountsDetermine(a: seq<string>, b: seq<string>)
    requires Sorted(a) && Sorted(b) && forall id: string :: Count(a, id) == Count(b, id)
    ensures a == b
  {
    forall id: string ensures multiset(a)[id] == multiset(b)[id] {
      assert Count(a, id) == Count(b, id);
    }
    SortedUnique(a, b);
  }

  lemma ListsDetermine(services: map<string, seq<string>>, svc: string, a: seq<string>, b: seq<string>)
    requires Sorted(a) && Sorted(b) && Lists(services, svc, a) && Lists(services, svc, b)
    ensures a == b
  {
    CountsDetermine(a, b);
  }

  /** The promise leaves nothing open: the response does not depend on map iteration order. */
  lemma IndexUnique(services: map<string, seq<string>>, a: map<string, seq<string>>, b: map<string, seq<string>>)
    requires IsIndex(services, a) && IsIndex(services, b)
    ensures a == b
  {
    assert a.Keys == b.Keys;
    forall svc <- a ensures a[svc] == b[svc] {
      assert svc in b && Sorted(a[svc]) && Sorted(b[svc]);
      ListsDetermine(services, svc, a[svc], b[svc]);
    }
  }

  /** The nodes visited so far. */
  ghost function Visited(services: map<string, seq<string>>, done: set<string>): map<string, seq<string>> {
    map id | id in services && id in done :: services[id]
  }

  /** svcMap[svc] = append(svcMap[svc], id) for each of a node's services. */
  method AddNode(index: map<string, seq<string>>, id: string, names: seq<string>)
    returns (r: map<string, seq<string>>)
    ensures forall svc :: svc in r <==> svc in index || svc in names
    ensures forall svc <- r, x: string ::
              Count(r[svc], x) == (if svc in index then Count(index[svc], x) else 0)
                                  + (if x == id then Count(names, svc) else 0)
  {
    r := index;
    for i := 0 to |names|
      invariant forall svc :: svc in r <==> svc in index || svc in names[..i]
      invariant forall svc <- r, x: string ::
                  Count(r[svc], x) == (if svc in index then Count(index[svc], x) else 0)
                                      + (if x == id then Count(names[..i], svc) else 0)
    {
      var svc := names[i];
      ghost var was := r;
      r := r[svc := (if svc in r then r[svc] else []) + [id]];
      assert names[..i + 1] == names[..i] + [svc];
      forall s <- r, x: string
        ensures Count(r[s], x) == (if s in index then Count(index[s], x) else 0)
                                  + (if x == id then Count(names[..i + 1], s) else 0)
      {
        CountAppend(names[..i], svc, s);
        if s == svc { CountAppend(if s in was then was[s] else [], id, x); }
      }
    }
    assert names[..|names|] == names;
  }

  lemma CountAppend(s: seq<string>, y: string, x: string)
    ensures Count(s + [y], x) == Count(s, x) + if x == y then 1 else 0
    ensures Count([], x) == 0 && (Count(s, x) == 0 <==> x !in s)
  {
    assert multiset(s)[x] == 0 <==> x !in multiset(s);
  }

  /** The loop that sorts the lists in place. */
  method SortLists(lists: map<string, seq<string>>) returns (r: map<string, seq<string>>)
    ensures r.Keys == lists.Keys
    ensures forall svc <- r :: Sorted(r[svc]) && multiset(r[svc]) == multiset(lists[svc])
  {
    r := lists;
    var rest := r.Keys;
    while rest != {}
      invariant rest <= r.Keys && r.Keys == lists.Keys
      invariant forall svc <- r :: multiset(r[svc]) == multiset(lists[svc])
      invariant forall svc <- r :: svc !in rest ==> Sorted(r[svc])
    {
      var svc :| svc in rest;
      r := r[svc := Sort(r[svc])];
      rest := rest - {svc};
    }
  }

  method HandleServices(services: map<string, seq<string>>) returns (svcMap: map<string, seq<string>>)
    ensures IsIndex(services, svcMap)
    ensures forall svc <- svcMap :: Ascending(svcMap[svc])
  {
    svcMap := map[];
    var rest := services.Keys;
    while rest != {}
      invariant rest <= services.Keys
      invariant Inverts(Visited(services, services.Keys - rest), svcMap)
    {
      var id :| id in rest;
      ghost var before, done := svcMap, services.Keys - rest;
      svcMap := AddNode(svcMap, id, services[id]);
      rest := rest - {id};
      assert Visited(services, services.Keys - rest) == Visited(services, done)[id := services[id]];
      OneMore(Visited(services, done), id, services[id], before, svcMap);
    }
    assert Visited(services, services.Keys) == services && services.Keys - rest == services.Keys;
    ghost var unsorted := svcMap;
    svcMap := SortLists(svcMap);
    forall svc <- svcMap ensures Lists(services, svc, svcMap[svc]) {
      SameLists(services, svc, unsorted[svc], svcMap[svc]);
    }
    forall svc <- svcMap ensures Ascending(svcMap[svc]) { SortedAscends(svcMap[svc]); }
  }

  lemma SameLists(services: map<string, seq<string>>, svc: string, a: seq<string>, b: seq<string>)
    requires Lists(services, svc, a) && multiset(a) == multiset(b)
    ensures Lists(services, svc, b)
  {
    forall id: string ensures Count(b, id) == Count(a, id) {}
  }

  /** Visiting one more node. */
  lemma OneMore(visited: map<string, seq<string>>, id: string, names: seq<string>,
                a: map<string, seq<string>>, b: map<string, seq<string>>)
    requires Inverts(visited, a) && id !in visited
    requires forall svc :: svc in b <==> svc in a || svc in names
    requires forall svc <- b, x: string ::
               Count(b[svc], x) == (if svc in a then Count(a[svc], x) else 0)
                 + (if x == id then Count(names, svc) else 0)
    ensures Inverts(visited[id := names], b)
  {
    var now := visited[id := names];
    forall svc ensures svc in b <==> Offered(now, svc) {
      if svc in names { assert now[id] == names; }
      if svc in a {
        var y :| y in visited && svc in visited[y];
        assert now[y] == visited[y];
      }
    }
    forall svc <- b ensures Lists(now, svc, b[svc]) {
      forall x: string ensures Count(b[svc], x) == if x in now then Count(now[x], svc) else 0 {
        assert Count(b[svc], x) == (if svc in a then Count(a[svc], x) else 0)
                 + (if x == id then Count(names, svc) else 0);
        if svc in a {
          assert Lists(visited, svc, a[svc]);
        } else if x in visited {
          assert svc !in visited[x] by { assert !Offered(visited, svc); }
          CountAppend(visited[x], "", svc);
        }
      }
    }
  }
}
