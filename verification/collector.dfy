/** The in-memory collector of HTTP request records
    (src/collectors/basic_collector.py) and the record it stores
    (src/types/http_info.py).

    The collector maps each host to the list of records received for it, in
    arrival order, and keeps a running total of their content lengths.  The
    object invariant `Valid` says that the total is the sum over all stored
    lists and that the lists are exactly the arrivals since the last clear,
    grouped by host. */
module Collector {

  /** One parsed HTTP request.  A datatype value, so immutable like the
      frozen dataclass of the source; the request method is named `verb`
      because `method` is a Dafny keyword. */
  datatype HttpInfo = HttpInfo(verb: string, host: string, path: string, contentLength: int)

  // ---------------------------------------------------------------------
  // Sums of content lengths

  /** The total content length of a list of records. */
  function SumLengths(s: seq<HttpInfo>): int
  {
    if s == [] then 0 else s[0].contentLength + SumLengths(s[1..])
  }

  /** Appending one record adds exactly its content length. */
  lemma {:induction false} SumLengthsAppend(s: seq<HttpInfo>, x: HttpInfo)
    ensures SumLengths(s + [x]) == SumLengths(s) + x.contentLength
  {
    if s != [] {
      assert (s + [x])[1..] == s[1..] + [x];
      SumLengthsAppend(s[1..], x);
    }
  }

  /** The total content length over every list of a host-to-records map. */
  ghost function MapTotal(m: map<string, seq<HttpInfo>>): int
    decreases |m|
  {
    if m == map[] then 0
    else
      var k :| k in m;
      assert |(m - {k}).Keys| == |m.Keys - {k}| == |m.Keys| - 1;
      SumLengths(m[k]) + MapTotal(m - {k})
  }

  /** `MapTotal` does not depend on which key it takes first: any key can be
      split off. */
  lemma {:induction false} MapTotalPick(m: map<string, seq<HttpInfo>>, k: string)
    requires k in m
    ensures MapTotal(m) == SumLengths(m[k]) + MapTotal(m - {k})
    decreases |m|
  {
    var j :| j in m && MapTotal(m) == SumLengths(m[j]) + MapTotal(m - {j});
    if j != k {
      assert |(m - {j}).Keys| == |m.Keys - {j}| == |m.Keys| - 1;
      assert |(m - {k}).Keys| == |m.Keys - {k}| == |m.Keys| - 1;
      MapTotalPick(m - {j}, k);
      MapTotalPick(m - {k}, j);
      assert m - {j} - {k} == m - {k} - {j};
    }
  }

  /** Replacing one host's list changes the total by the difference of the
      two lists' sums. */
  lemma MapTotalUpdate(m: map<string, seq<HttpInfo>>, k: string, v: seq<HttpInfo>)
    ensures MapTotal(m[k := v]) == MapTotal(m - {k}) + SumLengths(v)
    ensures k in m ==> MapTotal(m[k := v]) == MapTotal(m) - SumLengths(m[k]) + SumLengths(v)
  {
    MapTotalPick(m[k := v], k);
    assert m[k := v] - {k} == m - {k};
    if k in m {
      MapTotalPick(m, k);
    }
  }

  // ---------------------------------------------------------------------
  // Grouping records by host

  /** The records of `a` whose host is `h`, in their order in `a`. */
  function ByHost(a: seq<HttpInfo>, h: string): (r: seq<HttpInfo>)
    ensures |r| <= |a|
    ensures forall i :: 0 <= i < |r| ==> r[i].host == h
    ensures forall i :: 0 <= i < |r| ==> r[i] in a
  {
    if a == [] then []
    else
      var last := a[|a| - 1];
      ByHost(a[..|a| - 1], h) + (if last.host == h then [last] else [])
  }

  /** A new arrival lands at the end of its own host's group and nowhere else. */
  lemma ByHostAppend(a: seq<HttpInfo>, x: HttpInfo, h: string)
    ensures ByHost(a + [x], h) == ByHost(a, h) + (if x.host == h then [x] else [])
  {
    assert (a + [x])[..|a|] == a;
  }

  /** `m` holds exactly the records of `a`, grouped by host: a host has an
      entry iff some record of `a` names it, and its entry lists those
      records in arrival order. */
  ghost predicate Grouped(m: map<string, seq<HttpInfo>>, a: seq<HttpInfo>)
  {
    forall h :: (h in m <==> ByHost(a, h) != []) && (h in m ==> m[h] == ByHost(a, h))
  }

  /** In a grouping every list is non-empty and every stored record sits in
      the list keyed by its own host. */
  lemma GroupedWellKeyed(m: map<string, seq<HttpInfo>>, a: seq<HttpInfo>, h: string)
    requires Grouped(m, a)
    requires h in m
    ensures m[h] != []
    ensures forall i :: 0 <= i < |m[h]| ==> m[h][i].host == h && m[h][i] in a
  {
    assert m[h] == ByHost(a, h);
  }

  /** The total over a grouping is the total over the arrivals it groups. */
  lemma {:induction false} GroupedTotal(m: map<string, seq<HttpInfo>>, a: seq<HttpInfo>)
    requires Grouped(m, a)
    ensures MapTotal(m) == SumLengths(a)
    decreases |a|
  {
    if a == [] {
      assert m == map[];
    } else {
      var a', x := a[..|a| - 1], a[|a| - 1];
      assert a == a' + [x];
      var h := x.host;
      ByHostAppend(a', x, h);
      var m' := if ByHost(a', h) == [] then m - {h} else m[h := ByHost(a', h)];
      forall g
        ensures (g in m' <==> ByHost(a', g) != []) && (g in m' ==> m'[g] == ByHost(a', g))
      {
        ByHostAppend(a', x, g);
      }
      GroupedTotal(m', a');
      SumLengthsAppend(a', x);
      SumLengthsAppend(ByHost(a', h), x);
      MapTotalPick(m, h);
      if ByHost(a', h) != [] {
        MapTotalUpdate(m, h, ByHost(a', h));
      } else {
        assert m'.Keys == m.Keys - {h};
      }
    }
  }

  /** `m` with `x` appended to the list of its host, the list being created
      when the host has none. */
  function AppendToHost(m: map<string, seq<HttpInfo>>, x: HttpInfo): (m': map<string, seq<HttpInfo>>)
    ensures m'.Keys == m.Keys + {x.host}
    ensures forall h :: h in m && h != x.host ==> m'[h] == m[h]
  {
    m[x.host := (if x.host in m then m[x.host] else []) + [x]]
  }

  /** Appending a record to its host's list adds exactly its content length
      to the total over all lists. */
  lemma MapTotalAppend(m: map<string, seq<HttpInfo>>, x: HttpInfo)
    ensures MapTotal(AppendToHost(m, x)) == MapTotal(m) + x.contentLength
  {
    var list := if x.host in m then m[x.host] else [];
    MapTotalUpdate(m, x.host, list + [x]);
    SumLengthsAppend(list, x);
    if x.host !in m {
      assert m - {x.host} == m;
    }
  }

  /** Appending a new arrival to its host's list keeps the grouping. */
  lemma GroupedAppend(m: map<string, seq<HttpInfo>>, a: seq<HttpInfo>, x: HttpInfo)
    requires Grouped(m, a)
    ensures Grouped(AppendToHost(m, x), a + [x])
  {
    var m' := AppendToHost(m, x);
    forall h
      ensures (h in m' <==> ByHost(a + [x], h) != []) && (h in m' ==> m'[h] == ByHost(a + [x], h))
    {
      ByHostAppend(a, x, h);
    }
  }

  // ---------------------------------------------------------------------
  // The collector object

  class BasicCollector {
    /** Host to the records received for it, in arrival order. */
    var httpContainer: map<string, seq<HttpInfo>>
    /** The running sum of the content lengths received. */
    var totalContentLength: int
    /** Every record received since construction or the last clear, in order. */
    ghost var arrivals: seq<HttpInfo>

    ghost predicate Valid()
      reads this
    {
      && totalContentLength == MapTotal(httpContainer)
      && Grouped(httpContainer, arrivals)
    }

    constructor ()
      ensures Valid()
      ensures httpContainer == map[] && totalContentLength == 0 && arrivals == []
    {
      httpContainer := map[];
      totalContentLength := 0;
      arrivals := [];
    }

    /** Appends `info` to its host's list (creating the list when the host
        is new) and adds its content length to the running total. */
    method CollectHttpInfo(info: HttpInfo)
      requires Valid()
      modifies this
      ensures Valid()
      ensures arrivals == old(arrivals) + [info]
      ensures info.host in httpContainer
      ensures httpContainer[info.host]
           == (if info.host in old(httpContainer) then old(httpContainer)[info.host] else []) + [info]
      ensures httpContainer.Keys == old(httpContainer).Keys + {info.host}
      ensures forall h :: h in old(httpContainer) && h != info.host ==> httpContainer[h] == old(httpContainer)[h]
      ensures totalContentLength == old(totalContentLength) + info.contentLength
    {
      var list := if info.host in httpContainer then httpContainer[info.host] else [];
      ghost var before := httpContainer;
      httpContainer := httpContainer[info.host := list + [info]];
      totalContentLength := totalContentLength + info.contentLength;
      arrivals := arrivals + [info];
      MapTotalAppend(before, info);
      GroupedAppend(before, old(arrivals), info);
    }

    /** Forgets every record and zeroes the total.  The state it leaves does
        not depend on the state before, so clearing twice is clearing once. */
    method Clear()
      modifies this
      ensures Valid()
      ensures httpContainer == map[] && totalContentLength == 0 && arrivals == []
    {
      httpContainer := map[];
      totalContentLength := 0;
      arrivals := [];
    }
  }
}
