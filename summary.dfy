/** The grouping of found entries by status code that the end-of-scan summary walks
    (DirBrute.print_summary): one group per status, entries in arrival order, groups in
    ascending status order. */
module Summary {
  import opened Results

  /** The found entries with status s, in arrival order. */
  function WithStatus(es: seq<FoundEntry>, s: int): (r: seq<FoundEntry>)
    ensures |r| <= |es|
    ensures forall e :: e in r <==> e in es && e.status == s
  {
    if es == [] then []
    else
      var e := es[|es| - 1];
      WithStatus(es[..|es| - 1], s) + (if e.status == s then [e] else [])
  }

  /** The statuses occurring in es. */
  function StatusSet(es: seq<FoundEntry>): set<int> {
    set e | e in es :: e.status
  }

  predicate Distinct(ks: seq<int>) {
    forall i, j :: 0 <= i < j < |ks| ==> ks[i] != ks[j]
  }

  predicate StrictlyAscending(ks: seq<int>) {
    forall i, j :: 0 <= i < j < |ks| ==> ks[i] < ks[j]
  }

  /** The keys of the grouping dict in insertion order: each status at its first arrival. */
  function FirstArrivals(es: seq<FoundEntry>): (r: seq<int>)
    ensures Distinct(r)
    ensures forall s :: s in r <==> s in StatusSet(es)
  {
    if es == [] then []
    else
      var init := FirstArrivals(es[..|es| - 1]);
      var e := es[|es| - 1];
      assert forall x :: x in es <==> x in es[..|es| - 1] || x == e;
      if e.status in init then init else init + [e.status]
  }

  /** Inserting a new key into an ascending key list. */
  function Insert(x: int, ks: seq<int>): (r: seq<int>)
    requires StrictlyAscending(ks)
    requires x !in ks
    ensures |r| == |ks| + 1
    ensures StrictlyAscending(r)
    ensures forall k :: k in r <==> k == x || k in ks
  {
    if ks == [] then [x]
    else if x < ks[0] then
      AscendingFirst(ks);
      AscendingCons(x, ks);
      [x] + ks
    else
      assert ks[0] in ks;
      var rest := Insert(x, ks[1..]);
      assert ks == [ks[0]] + ks[1..];
      AscendingFirst(ks);
      AscendingCons(ks[0], rest);
      [ks[0]] + rest
  }

  /** The first key of an ascending list is below all the others. */
  lemma AscendingFirst(ks: seq<int>)
    requires StrictlyAscending(ks) && ks != []
    ensures forall k :: k in ks[1..] ==> ks[0] < k
    ensures forall k :: k in ks ==> ks[0] <= k
  {
    forall k | k in ks
      ensures ks[0] <= k
    {
      var i :| 0 <= i < |ks| && ks[i] == k;
    }
    forall k | k in ks[1..]
      ensures ks[0] < k
    {
      var i :| 0 <= i < |ks| - 1 && ks[1..][i] == k;
      assert ks[i + 1] == k;
    }
  }

  /** A key below every key of an ascending list can be put in front of it. */
  lemma AscendingCons(x: int, ks: seq<int>)
    requires StrictlyAscending(ks)
    requires forall k :: k in ks ==> x < k
    ensures StrictlyAscending([x] + ks)
  {
    var r := [x] + ks;
    forall i, j | 0 <= i < j < |r|
      ensures r[i] < r[j]
    {
      assert r[j] == ks[j - 1];
      if i > 0 {
        assert r[i] == ks[i - 1];
      } else {
        assert ks[j - 1] in ks;
      }
    }
  }

  /** sorted() applied to a list of distinct keys. */
  function SortKeys(ks: seq<int>): (r: seq<int>)
    requires Distinct(ks)
    ensures |r| == |ks|
    ensures StrictlyAscending(r)
    ensures forall k :: k in r <==> k in ks
  {
    if ks == [] then []
    else Insert(ks[|ks| - 1], SortKeys(ks[..|ks| - 1]))
  }

  /** One status with its entries. */
  datatype Group = Group(status: int, entries: seq<FoundEntry>)

  /** The groups for the given keys, in the order of the keys. */
  function GroupsFor(es: seq<FoundEntry>, ks: seq<int>): seq<Group> {
    if ks == [] then []
    else
      var k := ks[|ks| - 1];
      GroupsFor(es, ks[..|ks| - 1]) + [Group(k, WithStatus(es, k))]
  }

  /** The groups the summary prints, in the order it prints them. */
  function Summarize(es: seq<FoundEntry>): seq<Group> {
    GroupsFor(es, SortKeys(FirstArrivals(es)))
  }

  /** The number of entries over all groups. */
  function TotalEntries(gs: seq<Group>): nat {
    if gs == [] then 0 else TotalEntries(gs[..|gs| - 1]) + |gs[|gs| - 1].entries|
  }

  /** Number of occurrences of s in ks. */
  function Occurrences(ks: seq<int>, s: int): nat {
    if ks == [] then 0 else Occurrences(ks[..|ks| - 1], s) + (if ks[|ks| - 1] == s then 1 else 0)
  }

  /** A status without entries has an empty group. */
  lemma WithStatusAbsent(es: seq<FoundEntry>, s: int)
    requires s !in StatusSet(es)
    ensures WithStatus(es, s) == []
  {
  }

  /** Appending an entry appends it to its own group only. */
  lemma WithStatusSnoc(es: seq<FoundEntry>, e: FoundEntry, s: int)
    ensures WithStatus(es + [e], s) == WithStatus(es, s) + (if e.status == s then [e] else [])
  {
    assert (es + [e])[..|es|] == es;
  }

  /** The grouping dict and its key order after the entries es have been added. */
  ghost predicate Grouped(es: seq<FoundEntry>, byStatus: map<int, seq<FoundEntry>>, order: seq<int>) {
    && order == FirstArrivals(es)
    && (forall s :: s in byStatus <==> s in order)
    && (forall s :: s in byStatus ==> byStatus[s] == WithStatus(es, s))
  }

  /** One iteration of the grouping loop: a new status gets an empty list and joins the
      key order, then the entry is appended to its status's list. */
  lemma GroupedStep(es: seq<FoundEntry>, i: nat, byStatus: map<int, seq<FoundEntry>>, order: seq<int>)
    requires i < |es|
    requires Grouped(es[..i], byStatus, order)
    ensures var e := es[i];
      var isNew := e.status !in byStatus;
      var started := if isNew then byStatus[e.status := []] else byStatus;
      Grouped(es[..i + 1], started[e.status := started[e.status] + [e]],
              if isNew then order + [e.status] else order)
  {
    var e := es[i];
    var prefix := es[..i];
    assert es[..i + 1] == prefix + [e];
    FirstArrivalsSnoc(prefix, e);
    var isNew := e.status !in byStatus;
    var started := if isNew then byStatus[e.status := []] else byStatus;
    var updated := started[e.status := started[e.status] + [e]];
    if isNew {
      WithStatusAbsent(prefix, e.status);
    }
    forall s | s in updated
      ensures updated[s] == WithStatus(prefix + [e], s)
    {
      WithStatusSnoc(prefix, e, s);
    }
  }

  lemma FirstArrivalsSnoc(es: seq<FoundEntry>, e: FoundEntry)
    ensures var init := FirstArrivals(es);
      FirstArrivals(es + [e]) == if e.status in init then init else init + [e.status]
  {
    assert (es + [e])[..|es|] == es;
  }

  /** Entries keep arrival order within their group: the group of an earlier stretch of
      arrivals is a prefix of the group of a later one. */
  lemma {:induction false} WithStatusPrefix(es: seq<FoundEntry>, k: nat, s: int)
    requires k <= |es|
    ensures WithStatus(es[..k], s) <= WithStatus(es, s)
  {
    if k < |es| {
      var init := es[..|es| - 1];
      assert es[..k] == init[..k];
      WithStatusPrefix(init, k, s);
    } else {
      assert es[..k] == es;
    }
  }

  /** The groups are exactly the statuses of the found entries, each once, in strictly
      ascending order, and each group holds precisely the entries with its status. */
  lemma SummarizeGroups(es: seq<FoundEntry>)
    ensures var gs := Summarize(es);
      && (forall i, j :: 0 <= i < j < |gs| ==> gs[i].status < gs[j].status)
      && (forall s :: s in StatusSet(es) <==> exists i :: 0 <= i < |gs| && gs[i].status == s)
      && (forall i :: 0 <= i < |gs| ==> gs[i].entries == WithStatus(es, gs[i].status) && gs[i].entries != [])
  {
    var ks := SortKeys(FirstArrivals(es));
    GroupsForShape(es, ks);
    var gs := Summarize(es);
    forall i | 0 <= i < |gs|
      ensures gs[i].entries != []
    {
      assert gs[i].status == ks[i] && ks[i] in ks;
      var s := ks[i];
      var e :| e in es && e.status == s;
      assert e in WithStatus(es, s);
    }
    forall s | s in StatusSet(es)
      ensures exists i :: 0 <= i < |gs| && gs[i].status == s
    {
      assert s in ks;
      var i :| 0 <= i < |ks| && ks[i] == s;
      assert gs[i].status == s;
    }
  }

  lemma {:induction false} GroupsForShape(es: seq<FoundEntry>, ks: seq<int>)
    ensures |GroupsFor(es, ks)| == |ks|
    ensures forall i :: 0 <= i < |ks| ==> GroupsFor(es, ks)[i] == Group(ks[i], WithStatus(es, ks[i]))
  {
    if ks != [] {
      GroupsForShape(es, ks[..|ks| - 1]);
    }
  }

  /** Every found entry lands in exactly one group, the one keyed by its status. */
  lemma SummarizePartition(es: seq<FoundEntry>, e: FoundEntry)
    requires e in es
    ensures var gs := Summarize(es);
      && (exists i :: 0 <= i < |gs| && e in gs[i].entries)
      && (forall i, j :: 0 <= i < |gs| && 0 <= j < |gs| && e in gs[i].entries && e in gs[j].entries ==> i == j)
  {
    SummarizeGroups(es);
    var gs := Summarize(es);
    assert e.status in StatusSet(es);
    var i :| 0 <= i < |gs| && gs[i].status == e.status;
    assert e in gs[i].entries;
  }

  /** The group sizes sum to the number of found entries. */
  lemma SummarizeTotal(es: seq<FoundEntry>)
    ensures TotalEntries(Summarize(es)) == |es|
  {
    var ks := SortKeys(FirstArrivals(es));
    forall e | e in es
      ensures e.status in ks
    {
      assert e.status in StatusSet(es);
    }
    TotalCovering(es, ks);
  }

  /** Over distinct keys covering every status, the groups hold every entry once. */
  lemma {:induction false} TotalCovering(es: seq<FoundEntry>, ks: seq<int>)
    requires Distinct(ks)
    requires forall e :: e in es ==> e.status in ks
    ensures TotalEntries(GroupsFor(es, ks)) == |es|
    decreases |es|
  {
    if es == [] {
      TotalEmpty(ks);
    } else {
      var init := es[..|es| - 1];
      var e := es[|es| - 1];
      assert es == init + [e];
      TotalCovering(init, ks);
      TotalSnoc(init, e, ks);
      OccurrencesDistinct(ks, e.status);
    }
  }

  lemma {:induction false} TotalEmpty(ks: seq<int>)
    ensures TotalEntries(GroupsFor([], ks)) == 0
  {
    if ks != [] {
      var init := ks[..|ks| - 1];
      TotalEmpty(init);
      var gs := GroupsFor([], init);
      assert (gs + [Group(ks[|ks| - 1], [])])[..|gs|] == gs;
    }
  }

  /** Appending an entry adds one to the total for each key equal to its status. */
  lemma {:induction false} TotalSnoc(es: seq<FoundEntry>, e: FoundEntry, ks: seq<int>)
    ensures TotalEntries(GroupsFor(es + [e], ks)) == TotalEntries(GroupsFor(es, ks)) + Occurrences(ks, e.status)
  {
    if ks != [] {
      var init := ks[..|ks| - 1];
      var k := ks[|ks| - 1];
      TotalSnoc(es, e, init);
      WithStatusSnoc(es, e, k);
      var a, b := GroupsFor(es + [e], init), GroupsFor(es, init);
      assert (a + [Group(k, WithStatus(es + [e], k))])[..|a|] == a;
      assert (b + [Group(k, WithStatus(es, k))])[..|b|] == b;
    }
  }

  /** A key of a list of distinct keys occurs in it exactly once. */
  lemma {:induction false} OccurrencesDistinct(ks: seq<int>, s: int)
    requires Distinct(ks)
    requires s in ks
    ensures Occurrences(ks, s) == 1
  {
    var init := ks[..|ks| - 1];
    if ks[|ks| - 1] == s {
      OccurrencesAbsent(init, s);
    } else {
      assert s in init;
      OccurrencesDistinct(init, s);
    }
  }

  lemma {:induction false} OccurrencesAbsent(ks: seq<int>, s: int)
    requires s !in ks
    ensures Occurrences(ks, s) == 0
  {
    if ks != [] {
      OccurrencesAbsent(ks[..|ks| - 1], s);
    }
  }
}
