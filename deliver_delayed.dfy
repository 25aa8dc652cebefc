/**
 * The `admin/queue/deliver-delayed` endpoint: counts the delayed delivery jobs
 * per destination host and lists the hosts by count, largest first.
 */
module DeliverDelayed {
  import opened Wrappers

  type Host = string

  /** A delayed job of the deliver queue; `to` is `job.data.to`, the inbox URL. */
  datatype Job = Job(to: string)

  /** A `resMap` value. */
  datatype Entry = Entry(count: nat, flag: bool)

  /** A result row `[host, count, isNotResponding]`. */
  datatype Row = Row(host: Host, count: nat, flag: bool)

  predicate NoDuplicates<T(==)>(s: seq<T>) {
    forall i, j :: 0 <= i < j < |s| ==> s[i] != s[j]
  }

  /**
   * `new URL(job.data.to).host` for every job, in order; `None` when some URL
   * does not parse (`hostOf` answers `None`), which makes the endpoint throw.
   */
  function Hosts(jobs: seq<Job>, hostOf: string -> Option<Host>): (r: Option<seq<Host>>)
    ensures r.Some? ==>
      && |r.value| == |jobs|
      && (forall k :: 0 <= k < |jobs| ==> hostOf(jobs[k].to) == Some(r.value[k]))
    ensures r.None? ==> exists k :: 0 <= k < |jobs| && hostOf(jobs[k].to).None?
  {
    if jobs == [] then Some([])
    else
      match Hosts(jobs[..|jobs| - 1], hostOf)
      case None => None
      case Some(hs) =>
        match hostOf(jobs[|jobs| - 1].to)
        case None => None
        case Some(h) => Some(hs + [h])
  }

  /** The distinct hosts of `s`, in the order they are first seen. */
  function Distinct(s: seq<Host>): (r: seq<Host>)
    ensures NoDuplicates(r)
    ensures forall h :: h in r <==> h in s
  {
    if s == [] then []
    else
      var d := Distinct(s[..|s| - 1]);
      var h := s[|s| - 1];
      assert s == s[..|s| - 1] + [h];
      if h in d then d else d + [h]
  }

  /**
   * The rows before sorting: one per distinct host in first-seen order (the
   * iteration order of `resMap`), with its number of jobs and its
   * `isNotResponding` flag.
   */
  function Tally(hosts: seq<Host>, isNotResponding: Host -> bool): seq<Row> {
    var keys := Distinct(hosts);
    seq(|keys|, j requires 0 <= j < |keys| => Row(keys[j], multiset(hosts)[keys[j]], isNotResponding(keys[j])))
  }

  function SumCounts(rows: seq<Row>): nat {
    if rows == [] then 0 else rows[0].count + SumCounts(rows[1..])
  }

  predicate SortedByCountDesc(rows: seq<Row>) {
    forall i, j :: 0 <= i < j < |rows| ==> rows[i].count >= rows[j].count
  }

  /** The rows whose count is `c`, in their order. */
  function WithCount(rows: seq<Row>, c: nat): seq<Row> {
    if rows == [] then []
    else (if rows[0].count == c then [rows[0]] else []) + WithCount(rows[1..], c)
  }

  /**
   * `a` and `b` hold, for every count, the same rows in the same order: `a`
   * is a rearrangement of `b` that never reorders two rows of equal count.
   */
  ghost predicate SameCountGroups(a: seq<Row>, b: seq<Row>) {
    forall c :: WithCount(a, c) == WithCount(b, c)
  }

  // ---------------------------------------------------------------------------
  // Facts about the reference definitions

  lemma {:induction false} WithCountConcat(a: seq<Row>, b: seq<Row>, c: nat)
    ensures WithCount(a + b, c) == WithCount(a, c) + WithCount(b, c)
  {
    if a != [] {
      assert (a + b)[1..] == a[1..] + b;
      WithCountConcat(a[1..], b, c);
    } else {
      assert a + b == b;
    }
  }

  /** Exchanging two neighbouring rows of different counts keeps every count group. */
  lemma SwapKeepsGroups(s: seq<Row>, k: nat)
    requires k + 1 < |s| && s[k].count != s[k + 1].count
    ensures SameCountGroups(s[k := s[k + 1]][k + 1 := s[k]], s)
  {
    var t := s[k := s[k + 1]][k + 1 := s[k]];
    assert s == s[..k] + [s[k], s[k + 1]] + s[k + 2..];
    assert t == s[..k] + [s[k + 1], s[k]] + s[k + 2..];
    forall c ensures WithCount(t, c) == WithCount(s, c) {
      WithCountConcat(s[..k] + [s[k], s[k + 1]], s[k + 2..], c);
      WithCountConcat(s[..k], [s[k], s[k + 1]], c);
      WithCountConcat(s[..k] + [s[k + 1], s[k]], s[k + 2..], c);
      WithCountConcat(s[..k], [s[k + 1], s[k]], c);
      assert [s[k], s[k + 1]][1..] == [s[k + 1]];
      assert [s[k + 1], s[k]][1..] == [s[k]];
    }
  }

  lemma SameCountGroupsTransitive(a: seq<Row>, b: seq<Row>, c: seq<Row>)
    requires SameCountGroups(a, b) && SameCountGroups(b, c)
    ensures SameCountGroups(a, c)
  {
  }

  lemma {:induction false} WithCountMultiset(s: seq<Row>, x: Row)
    ensures multiset(s)[x] == multiset(WithCount(s, x.count))[x]
  {
    if s != [] {
      assert s == [s[0]] + s[1..];
      WithCountMultiset(s[1..], x);
    }
  }

  /** Keeping every count group means keeping every row: the rearrangement is a permutation. */
  lemma SameCountGroupsIsPermutation(a: seq<Row>, b: seq<Row>)
    requires SameCountGroups(a, b)
    ensures multiset(a) == multiset(b)
  {
    forall x ensures multiset(a)[x] == multiset(b)[x] {
      WithCountMultiset(a, x);
      WithCountMultiset(b, x);
      assert WithCount(a, x.count) == WithCount(b, x.count);
    }
  }

  lemma {:induction false} SumCountsConcat(a: seq<Row>, b: seq<Row>)
    ensures SumCounts(a + b) == SumCounts(a) + SumCounts(b)
  {
    if a == [] {
      assert a + b == b;
    } else {
      assert (a + b)[1..] == a[1..] + b;
      SumCountsConcat(a[1..], b);
    }
  }

  /** Rearranging the rows does not change the total count. */
  lemma {:induction false} PermutationKeepsSum(a: seq<Row>, b: seq<Row>)
    requires multiset(a) == multiset(b)
    ensures SumCounts(a) == SumCounts(b)
    decreases |a|
  {
    if a == [] {
      assert |b| == |multiset(b)| == 0;
    } else {
      var x := a[0];
      assert x in b by {
        assert x in multiset(a);
      }
      var k :| 0 <= k < |b| && b[k] == x;
      var rest := RemoveAt(b, k);
      assert multiset(a[1..]) == multiset(rest) by {
        assert a == [x] + a[1..];
      }
      PermutationKeepsSum(a[1..], rest);
    }
  }

  /** `b` without its row at `k`, which keeps the other rows and their total. */
  lemma RemoveAt(b: seq<Row>, k: nat) returns (rest: seq<Row>)
    requires k < |b|
    ensures multiset(rest) == multiset(b) - multiset{b[k]}
    ensures SumCounts(b) == SumCounts(rest) + b[k].count
    ensures |rest| == |b| - 1
  {
    rest := b[..k] + b[k + 1..];
    assert b == b[..k] + ([b[k]] + b[k + 1..]);
    SumCountsConcat(b[..k], [b[k]] + b[k + 1..]);
    SumCountsConcat(b[..k], b[k + 1..]);
  }

  lemma {:induction false} NoDuplicatesAtMostOnce(s: seq<Row>, x: Row)
    requires NoDuplicates(s)
    ensures multiset(s)[x] <= 1
  {
    if s != [] {
      assert s == [s[0]] + s[1..];
      NoDuplicatesAtMostOnce(s[1..], x);
      if s[0] == x {
        assert x !in s[1..];
      }
    }
  }

  lemma RepeatedTwice(s: seq<Row>, i: nat, j: nat)
    requires i < j < |s| && s[i] == s[j]
    ensures multiset(s)[s[i]] >= 2
  {
    assert s == s[..i] + [s[i]] + s[i + 1..j] + [s[j]] + s[j + 1..];
  }

  /** The total count of the hosts `keys`, each counted in `hosts`. */
  function SumOccurrences(keys: seq<Host>, hosts: seq<Host>): nat {
    if keys == [] then 0
    else SumOccurrences(keys[..|keys| - 1], hosts) + multiset(hosts)[keys[|keys| - 1]]
  }

  lemma {:induction false} SumOccurrencesAppend(keys: seq<Host>, hosts: seq<Host>, h: Host)
    requires NoDuplicates(keys)
    ensures SumOccurrences(keys, hosts + [h]) == SumOccurrences(keys, hosts) + (if h in keys then 1 else 0)
    decreases |keys|
  {
    if keys != [] {
      var init := keys[..|keys| - 1];
      assert keys == init + [keys[|keys| - 1]];
      SumOccurrencesAppend(init, hosts, h);
    }
  }

  lemma {:induction false} SumOccurrencesOfDistinct(hosts: seq<Host>)
    ensures SumOccurrences(Distinct(hosts), hosts) == |hosts|
    decreases |hosts|
  {
    if hosts != [] {
      var init := hosts[..|hosts| - 1];
      var h := hosts[|hosts| - 1];
      assert hosts == init + [h];
      SumOccurrencesOfDistinct(init);
      SumOccurrencesAppend(Distinct(init), init, h);
      if h !in Distinct(init) {
        assert Distinct(hosts)[..|Distinct(hosts)| - 1] == Distinct(init);
      }
    }
  }

  lemma {:induction false} SumCountsOfRows(keys: seq<Host>, hosts: seq<Host>, rows: seq<Row>)
    requires |rows| == |keys|
    requires forall j :: 0 <= j < |keys| ==> rows[j].count == multiset(hosts)[keys[j]]
    ensures SumCounts(rows) == SumOccurrences(keys, hosts)
    decreases |keys|
  {
    if keys != [] {
      var n := |keys| - 1;
      SumCountsOfRows(keys[..n], hosts, rows[..n]);
      assert rows == rows[..n] + [rows[n]];
      SumCountsConcat(rows[..n], [rows[n]]);
      assert SumCounts([rows[n]]) == rows[n].count;
    }
  }

  /**
   * The tally has one row per distinct host, each counting that host's jobs
   * and carrying its flag, and the counts add up to the number of jobs.
   */
  lemma TallyMeaning(hosts: seq<Host>, isNotResponding: Host -> bool)
    ensures var rows := Tally(hosts, isNotResponding);
      && NoDuplicates(rows)
      && (forall i, j :: 0 <= i < j < |rows| ==> rows[i].host != rows[j].host)
      && (forall h :: h in hosts <==> exists j :: 0 <= j < |rows| && rows[j].host == h)
      && (forall j :: 0 <= j < |rows| ==>
            rows[j].count == multiset(hosts)[rows[j].host] >= 1
            && rows[j].flag == isNotResponding(rows[j].host))
      && SumCounts(rows) == |hosts|
  {
    var keys := Distinct(hosts);
    var rows := Tally(hosts, isNotResponding);
    forall h | h in hosts ensures exists j :: 0 <= j < |rows| && rows[j].host == h {
      var j :| 0 <= j < |keys| && keys[j] == h;
      assert rows[j].host == h;
    }
    forall j | 0 <= j < |rows| ensures multiset(hosts)[rows[j].host] >= 1 {
      assert keys[j] in hosts;
    }
    SumCountsOfRows(keys, hosts, rows);
    SumOccurrencesOfDistinct(hosts);
  }

  /** What `TallyMeaning` says of the tally holds of any rearrangement of it that keeps the count groups. */
  lemma RearrangedTallyMeaning(hosts: seq<Host>, isNotResponding: Host -> bool, sorted: seq<Row>)
    requires SameCountGroups(sorted, Tally(hosts, isNotResponding))
    ensures (forall i, j :: 0 <= i < j < |sorted| ==> sorted[i].host != sorted[j].host)
      && (forall h :: h in hosts <==> exists i :: 0 <= i < |sorted| && sorted[i].host == h)
      && (forall i :: 0 <= i < |sorted| ==>
            sorted[i].count == multiset(hosts)[sorted[i].host]
            && sorted[i].flag == isNotResponding(sorted[i].host))
      && SumCounts(sorted) == |hosts|
  {
    var rows := Tally(hosts, isNotResponding);
    TallyMeaning(hosts, isNotResponding);
    SameCountGroupsIsPermutation(sorted, rows);
    PermutationKeepsSum(sorted, rows);
    forall i | 0 <= i < |sorted|
      ensures sorted[i].count == multiset(hosts)[sorted[i].host]
      ensures sorted[i].flag == isNotResponding(sorted[i].host)
    {
      assert sorted[i] in multiset(rows);
    }
    forall h | h in hosts ensures exists i :: 0 <= i < |sorted| && sorted[i].host == h {
      var j :| 0 <= j < |rows| && rows[j].host == h;
      assert rows[j] in multiset(sorted);
    }
    forall h | (exists i :: 0 <= i < |sorted| && sorted[i].host == h) ensures h in hosts {
      var i :| 0 <= i < |sorted| && sorted[i].host == h;
      assert sorted[i] in multiset(rows);
    }
    forall i, j | 0 <= i < j < |sorted| ensures sorted[i].host != sorted[j].host {
      if sorted[i].host == sorted[j].host {
        assert sorted[i] in multiset(rows) && sorted[j] in multiset(rows);
        assert sorted[i] == sorted[j];
        RepeatedTwice(sorted, i, j);
        NoDuplicatesAtMostOnce(rows, sorted[i]);
      }
    }
  }

  // ---------------------------------------------------------------------------
  // The endpoint

  /**
   * The loop over the jobs that counts them per host into `resMap`; `hosts'`
   * is `None` when a URL does not parse.
   */
  method CountByHost(jobs: seq<Job>, hostOf: string -> Option<Host>)
    returns (hosts': Option<seq<Host>>, keys: seq<Host>, resMap: map<Host, Entry>)
    ensures hosts' == Hosts(jobs, hostOf)
    ensures hosts'.Some? ==> keys == Distinct(hosts'.value) && resMap == CountMap(hosts'.value)
  {
    // Count the jobs per host; a host seen for the first time starts at 1, unflagged.
    keys := [];
    resMap := map[];
    var hosts: seq<Host> := [];
    var i := 0;
    while i < |jobs|
      invariant 0 <= i <= |jobs|
      invariant Hosts(jobs[..i], hostOf) == Some(hosts)
      invariant keys == Distinct(hosts)
      invariant resMap == CountMap(hosts)
    {
      var host := hostOf(jobs[i].to);
      if host.None? {
        HostsFailAt(jobs, hostOf, i);
        hosts' := None;
        return;
      }
      var h := host.value;
      HostsStep(jobs, hostOf, i, hosts);
      keys, resMap := CountHost(hosts, h, keys, resMap);
      hosts := hosts + [h];
      i := i + 1;
    }
    assert jobs[..i] == jobs;
    hosts' := Some(hosts);
  }

  /** One step of the counting loop: the job's host `h` is added to `resMap`. */
  method CountHost(hosts: seq<Host>, h: Host, keys: seq<Host>, resMap: map<Host, Entry>)
    returns (keys': seq<Host>, resMap': map<Host, Entry>)
    requires keys == Distinct(hosts) && resMap == CountMap(hosts)
    ensures keys' == Distinct(hosts + [h]) && resMap' == CountMap(hosts + [h])
  {
    DistinctStep(hosts, h);
    CountMapStep(hosts, h);
    if h in resMap {
      resMap' := resMap[h := resMap[h].(count := resMap[h].count + 1)];
      keys' := keys;
    } else {
      resMap' := resMap[h := Entry(1, false)];
      keys' := keys + [h];
    }
  }

  /** The `resMap` the counting loop has built once it has seen `hosts`. */
  function CountMap(hosts: seq<Host>): (r: map<Host, Entry>)
    ensures forall h :: h in r <==> h in hosts
    ensures forall h :: h in r ==> r[h] == Entry(multiset(hosts)[h], false)
  {
    map h | h in hosts :: Entry(multiset(hosts)[h], false)
  }

  lemma CountMapStep(hosts: seq<Host>, h: Host)
    ensures CountMap(hosts + [h]) ==
      if h in CountMap(hosts) then CountMap(hosts)[h := Entry(CountMap(hosts)[h].count + 1, false)]
      else CountMap(hosts)[h := Entry(1, false)]
  {
    assert multiset(hosts + [h]) == multiset(hosts) + multiset{h};
  }

  lemma HostsStep(jobs: seq<Job>, hostOf: string -> Option<Host>, i: nat, hosts: seq<Host>)
    requires i < |jobs| && Hosts(jobs[..i], hostOf) == Some(hosts)
    requires hostOf(jobs[i].to).Some?
    ensures Hosts(jobs[..i + 1], hostOf) == Some(hosts + [hostOf(jobs[i].to).value])
  {
    assert jobs[..i + 1][..i] == jobs[..i];
  }

  lemma {:induction false} HostsFailAt(jobs: seq<Job>, hostOf: string -> Option<Host>, i: nat)
    requires i < |jobs| && hostOf(jobs[i].to).None?
    ensures Hosts(jobs, hostOf).None?
  {
    var n := |jobs| - 1;
    if i < n {
      HostsFailAt(jobs[..n], hostOf, i);
    }
  }

  /** The index of the first occurrence of `h` in `s`. */
  function FirstIndex(s: seq<Host>, h: Host): (k: nat)
    requires h in s
    ensures k < |s| && s[k] == h
    ensures forall j :: 0 <= j < k ==> s[j] != h
  {
    if s[0] == h then 0 else 1 + FirstIndex(s[1..], h)
  }

  lemma FirstIndexOfPrefix(s: seq<Host>, x: Host, h: Host)
    requires x in s
    ensures FirstIndex(s + [h], x) == FirstIndex(s, x)
  {
    var k, k' := FirstIndex(s + [h], x), FirstIndex(s, x);
    assert (s + [h])[k'] == x;
  }

  /**
   * The hosts of `Distinct(s)` come in the order of their first occurrence
   * in `s`, the insertion order of the `Map` the hosts are counted in.
   */
  lemma {:induction false} DistinctInFirstSeenOrder(s: seq<Host>)
    ensures forall i, j :: 0 <= i < j < |Distinct(s)| ==>
      FirstIndex(s, Distinct(s)[i]) < FirstIndex(s, Distinct(s)[j])
  {
    if s != [] {
      var init := s[..|s| - 1];
      var h := s[|s| - 1];
      var d := Distinct(init);
      assert s == init + [h];
      DistinctInFirstSeenOrder(init);
      forall x | x in d ensures FirstIndex(s, x) == FirstIndex(init, x) {
        FirstIndexOfPrefix(init, x, h);
      }
      if h !in d {
        assert FirstIndex(s, h) == |init|;
      }
    }
  }

  lemma DistinctStep(hosts: seq<Host>, h: Host)
    ensures Distinct(hosts + [h]) == if h in Distinct(hosts) then Distinct(hosts) else Distinct(hosts) + [h]
  {
    assert (hosts + [h])[..|hosts|] == hosts;
  }

  /** The loop over `resMap` that sets each entry's flag from `isNotResponding`. */
  method FlagHosts(keys: seq<Host>, resMap: map<Host, Entry>, isNotResponding: Host -> bool)
    returns (flagged: map<Host, Entry>)
    requires forall h :: h in resMap <==> h in keys
    ensures flagged.Keys == resMap.Keys
    ensures forall h :: h in flagged ==> flagged[h] == Entry(resMap[h].count, isNotResponding(h))
  {
    flagged := resMap;
    var k := 0;
    while k < |keys|
      invariant 0 <= k <= |keys|
      invariant flagged.Keys == resMap.Keys
      invariant forall h :: h in flagged ==> flagged[h].count == resMap[h].count
      invariant forall h :: h in keys[..k] ==> flagged[h].flag == isNotResponding(h)
    {
      var h := keys[k];
      assert keys[..k + 1] == keys[..k] + [h];
      flagged := flagged[h := Entry(flagged[h].count, isNotResponding(h))];
      k := k + 1;
    }
    assert keys[..k] == keys;
  }

  /**
   * `res.sort((a, b) => b[1] - a[1])`: a stable sort by count, largest first,
   * done in place (insertion sort).
   */
  method SortByCountDesc(a: array<Row>)
    modifies a
    ensures SortedByCountDesc(a[..])
    ensures SameCountGroups(a[..], old(a[..]))
  {
    var i := 0;
    while i < a.Length
      invariant 0 <= i <= a.Length
      invariant forall k, l :: 0 <= k < l < i ==> a[k].count >= a[l].count
      invariant SameCountGroups(a[..], old(a[..]))
    {
      ghost var before := a[..];
      InsertAt(a, i);
      SameCountGroupsTransitive(a[..], before, old(a[..]));
      i := i + 1;
    }
  }

  /** One pass of the insertion sort: moves `a[i]` left past the smaller counts before it. */
  method InsertAt(a: array<Row>, i: nat)
    requires i < a.Length
    requires forall k, l :: 0 <= k < l < i ==> a[k].count >= a[l].count
    modifies a
    ensures forall k, l :: 0 <= k < l <= i ==> a[k].count >= a[l].count
    ensures SameCountGroups(a[..], old(a[..]))
  {
    var j := i;
    while j > 0 && a[j - 1].count < a[j].count
      invariant 0 <= j <= i
      invariant forall k, l :: 0 <= k < l <= i && k != j && l != j ==> a[k].count >= a[l].count
      invariant forall l :: j < l <= i ==> a[j].count > a[l].count
      invariant SameCountGroups(a[..], old(a[..]))
    {
      ghost var before := a[..];
      SwapKeepsGroups(before, j - 1);
      a[j - 1], a[j] := a[j], a[j - 1];
      assert a[..] == before[j - 1 := before[j]][j := before[j - 1]];
      SameCountGroupsTransitive(a[..], before, old(a[..]));
      j := j - 1;
    }
  }

  /** `Array.from` into a fresh array, sorted in place. */
  method SortRows(rows: seq<Row>) returns (sorted: seq<Row>)
    ensures SortedByCountDesc(sorted)
    ensures SameCountGroups(sorted, rows)
  {
    var a := new Row[|rows|](j requires 0 <= j < |rows| => rows[j]);
    assert a[..] == rows;
    SortByCountDesc(a);
    sorted := a[..];
  }

  /**
   * The endpoint body. Fails when a destination URL does not parse; otherwise
   * returns one row per distinct destination host with its number of delayed
   * jobs and its `isNotResponding` flag, sorted by count, largest first, hosts
   * of equal count in the order they were first seen.
   */
  method DeliverDelayedHosts(jobs: seq<Job>, hostOf: string -> Option<Host>, isNotResponding: Host -> bool)
    returns (res: Option<seq<Row>>)
    ensures res.None? <==> Hosts(jobs, hostOf).None?
    ensures res.Some? ==>
      var hosts := Hosts(jobs, hostOf).value;
      var rows := res.value;
      && SortedByCountDesc(rows)
      && SameCountGroups(rows, Tally(hosts, isNotResponding))
      && (forall i, j :: 0 <= i < j < |rows| ==> rows[i].host != rows[j].host)
      && (forall h :: h in hosts <==> exists i :: 0 <= i < |rows| && rows[i].host == h)
      && (forall i :: 0 <= i < |rows| ==>
            rows[i].count == multiset(hosts)[rows[i].host]
            && rows[i].flag == isNotResponding(rows[i].host))
      && SumCounts(rows) == |jobs|
  {
    var parsed, keys, resMap := CountByHost(jobs, hostOf);
    if parsed.None? {
      return None;
    }
    var hosts := parsed.value;

    // Overwrite each host's flag with that instance's `isNotResponding`.
    resMap := FlagHosts(keys, resMap, isNotResponding);

    // `Array.from(resMap, ...)` in insertion order, then sort.
    var rows := seq(|keys|, j requires 0 <= j < |keys| => Row(keys[j], resMap[keys[j]].count, resMap[keys[j]].flag));
    assert rows == Tally(hosts, isNotResponding);
    var sorted := SortRows(rows);
    RearrangedTallyMeaning(hosts, isNotResponding, sorted);
    res := Some(sorted);
  }
}
