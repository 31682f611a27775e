/** Marker pagination, fail-closed. */
module Pagination {
  import opened Prelude

  /** An element of a page's `data` list: a JSON object, or anything else. */
  datatype Element<T> = Dict(value: T) | Other

  /** A page: its data list if it has one, and the marker of the next page if it names one. */
  datatype Page<T, M> = Page(data: Option<seq<Element<T>>>, marker: Option<M>)

  /** The answers of one upstream; `None` is a request that failed.  The first request carries no marker. */
  type Upstream<!T, !M> = Option<M> -> Option<Page<T, M>>

  function Dicts<T>(data: seq<Element<T>>): seq<T> {
    if data == [] then []
    else Dicts(data[..|data| - 1]) + match data[|data| - 1] { case Dict(v) => [v] case Other => [] }
  }

  /** The request succeeds with a data list. */
  predicate Good<T(!new), M(!new)>(serve: Upstream<T, M>, m: Option<M>) {
    serve(m).Some? && serve(m).value.data.Some?
  }

  /** The good page at `m` names `next`. */
  predicate Leads<T(!new), M(!new, ==)>(serve: Upstream<T, M>, m: Option<M>, next: Option<M>) {
    Good(serve, m) && next.Some? && serve(m).value.marker == next
  }

  /** `markers` are the markers of all requests: each page names the next, the last page fails or names none. */
  ghost predicate IsChain<T(!new), M(!new)>(serve: Upstream<T, M>, markers: seq<Option<M>>) {
    && markers != [] && markers[0] == None
    && (forall i :: 0 < i < |markers| ==> Leads(serve, markers[i - 1], markers[i]))
    && (Good(serve, markers[|markers| - 1]) ==> serve(markers[|markers| - 1]).value.marker == None)
  }

  /** The dictionaries of all pages in order, or nothing at all if the last page failed. */
  ghost function Collected<T(!new), M(!new)>(serve: Upstream<T, M>, markers: seq<Option<M>>): Option<seq<T>>
    requires IsChain(serve, markers)
  {
    if Good(serve, markers[|markers| - 1]) then Some(AllDicts(serve, markers)) else None
  }

  /** The dictionaries of the page at `m`; a failed page has none. */
  function ItemsAt<T(!new), M(!new)>(serve: Upstream<T, M>, m: Option<M>): seq<T> {
    if Good(serve, m) then Dicts(serve(m).value.data.value) else []
  }

  ghost function AllDicts<T(!new), M(!new)>(serve: Upstream<T, M>, markers: seq<Option<M>>): seq<T> {
    if markers == [] then []
    else AllDicts(serve, markers[..|markers| - 1]) + ItemsAt(serve, markers[|markers| - 1])
  }

  // ---- what is collected, without naming how ----------------------------------------------

  /** The dictionary `v` stands at position `k` of page `p`. */
  ghost predicate DictAt<T(!new), M(!new)>(serve: Upstream<T, M>, markers: seq<Option<M>>, p: nat, k: nat, v: T) {
    && p < |markers| && serve(markers[p]).Some? && serve(markers[p]).value.data.Some?
    && k < |serve(markers[p]).value.data.value| && serve(markers[p]).value.data.value[k] == Dict(v)
  }

  /** Earlier pages first, and earlier positions first within a page. */
  ghost predicate InOrder(index: seq<(nat, nat)>) {
    forall q, r :: 0 <= q < r < |index| ==>
      index[q].0 < index[r].0 || (index[q].0 == index[r].0 && index[q].1 < index[r].1)
  }

  /** `index` gives page and position of each item; no dictionary of any page is left out. */
  ghost predicate Indexes<T(!new), M(!new)>(serve: Upstream<T, M>, markers: seq<Option<M>>, items: seq<T>,
                                            index: seq<(nat, nat)>)
  {
    && |index| == |items|
    && InOrder(index)
    && (forall q :: 0 <= q < |index| ==> DictAt(serve, markers, index[q].0, index[q].1, items[q]))
    && (forall p: nat, k: nat, v :: DictAt(serve, markers, p, k, v) ==> (p, k) in index)
  }

  lemma IndexesStep<T(!new), M(!new)>(serve: Upstream<T, M>, markers: seq<Option<M>>, items: seq<T>,
                                      index: seq<(nat, nat)>, p: nat, data: seq<Element<T>>, n: nat)
    requires p == |markers| - 1 && data == PageData(serve, markers[p]) && n < |data|
    requires IndexesUpTo(serve, markers, items, index, p, n)
    ensures data[n].Dict? ==> IndexesUpTo(serve, markers, items + [data[n].value], index + [(p, n)], p, n + 1)
    ensures data[n].Other? ==> IndexesUpTo(serve, markers, items, index, p, n + 1)
  {
    if data[n].Dict? {
      var more := index + [(p, n)];
      forall a: nat, k: nat, v | DictAt(serve, markers, a, k, v) && Earlier(a, k, p, n + 1) ensures (a, k) in more {
        if Earlier(a, k, p, n) {
          assert (a, k) in index;
        } else {
          assert more[|index|] == (a, k);
        }
      }
    }
  }

  function PageData<T(!new), M(!new)>(serve: Upstream<T, M>, m: Option<M>): seq<Element<T>> {
    if Good(serve, m) then serve(m).value.data.value else []
  }

  predicate Earlier(a: nat, k: nat, p: nat, n: nat) {
    a < p || (a == p && k < n)
  }

  /** The same for what comes before position `n` of page `p`. */
  ghost predicate IndexesUpTo<T(!new), M(!new)>(serve: Upstream<T, M>, markers: seq<Option<M>>, items: seq<T>,
                                                index: seq<(nat, nat)>, p: nat, n: nat)
  {
    && |index| == |items|
    && InOrder(index)
    && (forall q :: 0 <= q < |index| ==> Earlier(index[q].0, index[q].1, p, n))
    && (forall q :: 0 <= q < |index| ==> DictAt(serve, markers, index[q].0, index[q].1, items[q]))
    && (forall a: nat, k: nat, v :: DictAt(serve, markers, a, k, v) && Earlier(a, k, p, n) ==> (a, k) in index)
  }

  lemma {:induction false} PageIndex<T(!new), M(!new)>(serve: Upstream<T, M>, markers: seq<Option<M>>, items: seq<T>,
                                                       before: seq<(nat, nat)>, p: nat, n: nat)
    returns (index: seq<(nat, nat)>)
    requires p == |markers| - 1 && n <= |PageData(serve, markers[p])|
    requires IndexesUpTo(serve, markers, items, before, p, 0)
    ensures IndexesUpTo(serve, markers, items + Dicts(PageData(serve, markers[p])[..n]), index, p, n)
  {
    hide IndexesUpTo, PageData;
    var data := PageData(serve, markers[p]);
    if n == 0 {
      index := before;
      assert items + Dicts(data[..0]) == items;
    } else {
      index := PageIndex(serve, markers, items, before, p, n - 1);
      IndexesStep(serve, markers, items + Dicts(data[..n - 1]), index, p, data, n - 1);
      assert data[..n][..n - 1] == data[..n - 1];
      if data[n - 1].Dict? {
        index := index + [(p, n - 1)];
        assert items + Dicts(data[..n]) == items + Dicts(data[..n - 1]) + [data[n - 1].value];
      } else {
        assert Dicts(data[..n]) == Dicts(data[..n - 1]);
      }
    }
  }

  /** An index of all pages but the last, read as one of the whole list up to the last page. */
  lemma IndexesGrow<T(!new), M(!new)>(serve: Upstream<T, M>, markers: seq<Option<M>>, items: seq<T>,
                                      index: seq<(nat, nat)>)
    requires markers != [] && Indexes(serve, markers[..|markers| - 1], items, index)
    ensures IndexesUpTo(serve, markers, items, index, |markers| - 1, 0)
  {
    var n := |markers| - 1;
    forall q | 0 <= q < |index|
      ensures DictAt(serve, markers, index[q].0, index[q].1, items[q]) && Earlier(index[q].0, index[q].1, n, 0)
    {
      assert DictAt(serve, markers[..n], index[q].0, index[q].1, items[q]);
    }
    forall a: nat, k: nat, v | DictAt(serve, markers, a, k, v) && Earlier(a, k, n, 0) ensures (a, k) in index {
      assert DictAt(serve, markers[..n], a, k, v);
    }
  }

  lemma IndexesDone<T(!new), M(!new)>(serve: Upstream<T, M>, markers: seq<Option<M>>, items: seq<T>,
                                      index: seq<(nat, nat)>)
    requires markers != []
    requires var p := |markers| - 1;
             IndexesUpTo(serve, markers, items, index, p, |PageData(serve, markers[p])|)
    ensures Indexes(serve, markers, items, index)
  {
  }

  lemma {:induction false} PagesIndex<T(!new), M(!new)>(serve: Upstream<T, M>, markers: seq<Option<M>>)
    returns (index: seq<(nat, nat)>)
    ensures Indexes(serve, markers, AllDicts(serve, markers), index)
  {
    if markers == [] {
      index := [];
    } else {
      hide Indexes, IndexesUpTo, Dicts;
      var p := |markers| - 1;
      var before := PagesIndex(serve, markers[..p]);
      IndexesGrow(serve, markers, AllDicts(serve, markers[..p]), before);
      var data := PageData(serve, markers[p]);
      assert data[..|data|] == data;
      index := PageIndex(serve, markers, AllDicts(serve, markers[..p]), before, p, |data|);
      if !Good(serve, markers[p]) {
        NoDicts<T>();
      }
      IndexesDone(serve, markers, AllDicts(serve, markers), index);
    }
  }

  lemma NoDicts<T>()
    ensures Dicts<T>([]) == []
  {
  }

  /** Every dictionary of every page is collected once, in page order and then in the order of the page. */
  lemma CollectedInOrder<T(!new), M(!new)>(serve: Upstream<T, M>, markers: seq<Option<M>>)
    requires IsChain(serve, markers)
    ensures Collected(serve, markers).Some?
       <==> serve(markers[|markers| - 1]).Some? && serve(markers[|markers| - 1]).value.data.Some?
    ensures Collected(serve, markers).Some? ==>
              exists index :: Indexes(serve, markers, Collected(serve, markers).value, index)
  {
    var index := PagesIndex(serve, markers);
  }

  /** Page one holds dictionary 1 and marker 7, page 7 holds dictionary 2 and no marker: both are collected. */
  lemma TwoPagesWitness(serve: Upstream<int, int>)
    requires serve(None) == Some(Page(Some([Dict(1), Other]), Some(7)))
    requires serve(Some(7)) == Some(Page(Some([Dict(2)]), None))
    ensures IsChain(serve, [None, Some(7)]) && Collected(serve, [None, Some(7)]) == Some([1, 2])
  {
    var markers: seq<Option<int>> := [None, Some(7)];
    var index := PagesIndex(serve, markers);
    var items := AllDicts(serve, markers);
    assert DictAt(serve, markers, 0, 0, 1) && DictAt(serve, markers, 1, 0, 2);
    forall q | 0 <= q < |index| ensures index[q] == (0, 0) || index[q] == (1, 0) {
      assert DictAt(serve, markers, index[q].0, index[q].1, items[q]);
    }
    assert Leads(serve, markers[0], markers[1]);
    hide AllDicts, Dicts;
    TwoInOrder(index);
    assert DictAt(serve, markers, 0, 0, items[0]) && DictAt(serve, markers, 1, 0, items[1]);
    assert items == [1, 2];
  }

  lemma TwoInOrder(index: seq<(nat, nat)>)
    requires InOrder(index) && (0, 0) in index && (1, 0) in index
    requires forall q :: 0 <= q < |index| ==> index[q] == (0, 0) || index[q] == (1, 0)
    ensures index == [(0, 0), (1, 0)]
  {
    forall q, r | 0 <= q < r < |index| ensures index[q] == (0, 0) && index[r] == (1, 0) {
    }
    var i :| 0 <= i < |index| && index[i] == (0, 0);
    var j :| 0 <= j < |index| && index[j] == (1, 0);
    assert i == 0 && j == |index| - 1;
    assert index[1] == (1, 0);
  }

  method ExtendWithDicts<T>(items: seq<T>, data: seq<Element<T>>) returns (extended: seq<T>)
    ensures extended == items + Dicts(data)
  {
    extended := items;
    for i := 0 to |data|
      invariant extended == items + Dicts(data[..i])
    {
      assert data[..i + 1][..i] == data[..i];
      if data[i].Dict? {
        extended := extended + [data[i].value];
      }
    }
    assert data[..|data|] == data;
  }

  /** The page loop; `markers` only names the finite chain the upstream serves. */
  method GetAllPages<T(!new), M(!new)>(serve: Upstream<T, M>, ghost markers: seq<Option<M>>) returns (r: Option<seq<T>>)
    requires IsChain(serve, markers)
    ensures r == Collected(serve, markers)
    ensures r.Some? <==> serve(markers[|markers| - 1]).Some? && serve(markers[|markers| - 1]).value.data.Some?
    ensures r.Some? ==> exists index :: Indexes(serve, markers, r.value, index)
  {
    CollectedInOrder(serve, markers);
    hide Indexes, Dicts;
    var marker: Option<M> := None;
    var items: seq<T> := [];
    ghost var n := 0;
    while true
      invariant 0 <= n < |markers| && marker == markers[n]
      invariant items == AllDicts(serve, markers[..n])
      decreases |markers| - n
    {
      var page := serve(marker);
      assert n + 1 < |markers| ==> Leads(serve, markers[n + 1 - 1], markers[n + 1]);
      if page.None? || page.value.data.None? {
        return None;
      }
      items := ExtendWithDicts(items, page.value.data.value);
      assert markers[..n + 1][..n] == markers[..n];
      if page.value.marker.None? {
        assert markers[..n + 1] == markers;
        return Some(items);
      }
      marker := page.value.marker;
      n := n + 1;
    }
  }

  // ---- when the loop ends -----------------------------------------------------------------

  /** The marker of the `n`-th request, or `None` if the loop has ended before it. */
  function Request<T(!new), M(!new)>(serve: Upstream<T, M>, n: nat): Option<Option<M>> {
    if n == 0 then Some(None)
    else
      match Request(serve, n - 1)
      case None => None
      case Some(m) => if Good(serve, m) && serve(m).value.marker.Some? then Some(serve(m).value.marker) else None
  }

  lemma {:induction false} EndedStaysEnded<T(!new), M(!new)>(serve: Upstream<T, M>, n: nat, k: nat)
    requires n <= k && Request(serve, n) == None
    ensures Request(serve, k) == None
    decreases k
  {
    if n < k {
      EndedStaysEnded(serve, n, k - 1);
    }
  }

  lemma {:induction false} ChainRequests<T(!new), M(!new)>(serve: Upstream<T, M>, markers: seq<Option<M>>, i: nat)
    requires IsChain(serve, markers) && i < |markers|
    ensures Request(serve, i) == Some(markers[i])
  {
    if i > 0 {
      ChainRequests(serve, markers, i - 1);
    }
  }

  lemma {:induction false} ChainUpTo<T(!new), M(!new)>(serve: Upstream<T, M>, n: nat) returns (markers: seq<Option<M>>)
    requires Request(serve, n).Some?
    ensures |markers| == n + 1 && markers[0] == None && Request(serve, n) == Some(markers[n])
    ensures forall i :: 0 < i < |markers| ==> Leads(serve, markers[i - 1], markers[i])
  {
    if n == 0 {
      markers := [None];
    } else {
      markers := ChainUpTo(serve, n - 1);
      markers := markers + [Request(serve, n).value];
    }
  }

  lemma {:induction false} FirstEnd<T(!new), M(!new)>(serve: Upstream<T, M>, n: nat) returns (k: nat)
    requires Request(serve, n) == None
    ensures Request(serve, k).Some? && Request(serve, k + 1) == None
  {
    if Request(serve, n - 1).Some? {
      k := n - 1;
    } else {
      k := FirstEnd(serve, n - 1);
    }
  }

  /** The loop ends exactly when the upstream serves a finite chain. */
  lemma EndsIffChain<T(!new), M(!new)>(serve: Upstream<T, M>)
    ensures (exists n :: Request(serve, n) == None) <==> (exists markers :: IsChain(serve, markers))
  {
    if exists n :: Request(serve, n) == None {
      var n :| Request(serve, n) == None;
      var k := FirstEnd(serve, n);
      var markers := ChainUpTo(serve, k);
      assert IsChain(serve, markers);
    }
    if exists markers :: IsChain(serve, markers) {
      var markers :| IsChain(serve, markers);
      ChainRequests(serve, markers, |markers| - 1);
      assert Request(serve, |markers|) == None;
    }
  }

  /** The chain is determined by the upstream, so what is collected does not depend on how it is named. */
  lemma ChainUnique<T(!new), M(!new)>(serve: Upstream<T, M>, a: seq<Option<M>>, b: seq<Option<M>>)
    requires IsChain(serve, a) && IsChain(serve, b)
    ensures a == b
  {
    forall i | 0 <= i < |a| ensures Request(serve, i) == Some(a[i]) {
      ChainRequests(serve, a, i);
    }
    forall i | 0 <= i < |b| ensures Request(serve, i) == Some(b[i]) {
      ChainRequests(serve, b, i);
    }
    assert Request(serve, |a|) == None && Request(serve, |b|) == None by {
      assert Request(serve, |a| - 1).Some? && Request(serve, |b| - 1).Some?;
    }
    assert |a| == |b|;
  }

  /** There is no protection against a repeated marker: the loop then never ends. */
  lemma {:induction false} RepeatedMarkerNeverEnds<T(!new), M(!new)>(serve: Upstream<T, M>, i: nat, j: nat, n: nat)
    requires i < j && Request(serve, i) == Request(serve, j) && Request(serve, j).Some?
    ensures Request(serve, n).Some?
  {
    if n <= j {
      if Request(serve, n) == None {
        EndedStaysEnded(serve, n, j);
      }
    } else {
      RepeatedMarkerNeverEnds(serve, i, j, n - (j - i));
      Periodic(serve, i, j, n - j);
    }
  }

  lemma {:induction false} Periodic<T(!new), M(!new)>(serve: Upstream<T, M>, i: nat, j: nat, k: nat)
    requires Request(serve, i) == Request(serve, j)
    ensures Request(serve, i + k) == Request(serve, j + k)
  {
    if k > 0 {
      Periodic(serve, i, j, k - 1);
    }
  }

  /** Two of the first `n + 1` requests are the same. */
  ghost predicate Repeats<T(!new), M(!new)>(serve: Upstream<T, M>, n: nat) {
    exists i, j :: 0 <= i < j <= n && Request(serve, j).Some? && Request(serve, i) == Request(serve, j)
  }

  /** Every marker the loop meets is one of `s`. */
  ghost predicate MarkersIn<T(!new), M(!new)>(serve: Upstream<T, M>, s: set<M>) {
    forall n, m :: Request(serve, n) == Some(Some(m)) ==> m in s
  }

  /** A list longer than the set its elements come from has one of them twice. */
  lemma {:induction false} Pigeonhole<M(!new)>(ms: seq<M>, s: set<M>) returns (i: nat, j: nat)
    requires |ms| > |s| && forall k :: 0 <= k < |ms| ==> ms[k] in s
    ensures i < j < |ms| && ms[i] == ms[j]
    decreases |ms|
  {
    var n := |ms| - 1;
    if k :| 0 <= k < n && ms[k] == ms[n] {
      i, j := k, n;
    } else {
      assert ms[n] in s;
      i, j := Pigeonhole(ms[..n], s - {ms[n]});
    }
  }

  lemma LaterRequests<T(!new), M(!new)>(serve: Upstream<T, M>, n: nat, k: nat)
    requires Request(serve, n).Some? && 0 < k <= n
    ensures Request(serve, k).Some? && Request(serve, k).value.Some?
  {
    if Request(serve, k) == None {
      EndedStaysEnded(serve, k, n);
    }
  }

  /** With finitely many markers about, a loop that goes on that long repeats one. */
  lemma LongMeansRepeats<T(!new), M(!new)>(serve: Upstream<T, M>, s: set<M>)
    requires MarkersIn(serve, s) && Request(serve, |s| + 1).Some?
    ensures Repeats(serve, |s| + 1)
  {
    var n := |s| + 1;
    forall k | 0 < k <= n ensures Request(serve, k).Some? && Request(serve, k).value.Some? {
      LaterRequests(serve, n, k);
    }
    var ms := seq(n, k requires 0 <= k < n => Request(serve, k + 1).value.value);
    forall k | 0 <= k < n ensures ms[k] in s {
      assert Request(serve, k + 1) == Some(Some(ms[k]));
    }
    var i, j := Pigeonhole(ms, s);
    assert Request(serve, i + 1) == Request(serve, j + 1);
  }

  /**
   * Whether the loop ends can be read off the first requests: if all markers come from a finite set `s`, it ends
   * exactly when none of the first `|s| + 2` requests is made twice, and then before request `|s| + 1`.
   */
  lemma EndsIffNoRepeat<T(!new), M(!new)>(serve: Upstream<T, M>, s: set<M>)
    requires MarkersIn(serve, s)
    ensures (exists n :: Request(serve, n) == None) <==> !Repeats(serve, |s| + 1)
    ensures (exists n :: Request(serve, n) == None) <==> Request(serve, |s| + 1) == None
  {
    if Repeats(serve, |s| + 1) {
      var i, j :| 0 <= i < j <= |s| + 1 && Request(serve, j).Some? && Request(serve, i) == Request(serve, j);
      forall n: nat ensures Request(serve, n).Some? {
        RepeatedMarkerNeverEnds(serve, i, j, n);
      }
    } else {
      if Request(serve, |s| + 1).Some? {
        LongMeansRepeats(serve, s);
      }
      assert Request(serve, |s| + 1) == None;
    }
  }

  /** For any upstream: the loop ends exactly when it meets finitely many markers and never asks for one twice. */
  lemma EndsIffFiniteNoRepeat<T(!new), M(!new)>(serve: Upstream<T, M>)
    ensures (exists n :: Request(serve, n) == None)
       <==> (exists s: set<M> :: MarkersIn(serve, s)) && forall n :: !Repeats(serve, n)
  {
    if exists n :: Request(serve, n) == None {
      var n :| Request(serve, n) == None;
      var s := FiniteMarkers(serve, n);
      forall k: nat ensures !Repeats(serve, k) {
        if Repeats(serve, k) {
          var i, j :| 0 <= i < j <= k && Request(serve, j).Some? && Request(serve, i) == Request(serve, j);
          RepeatedMarkerNeverEnds(serve, i, j, n);
        }
      }
    }
    if (exists s: set<M> :: MarkersIn(serve, s)) && forall n :: !Repeats(serve, n) {
      var s: set<M> :| MarkersIn(serve, s);
      EndsIffNoRepeat(serve, s);
    }
  }

  lemma {:induction false} FiniteMarkers<T(!new), M(!new)>(serve: Upstream<T, M>, n: nat) returns (s: set<M>)
    requires Request(serve, n) == None
    ensures MarkersIn(serve, s)
  {
    s := MarkersBefore(serve, n);
    forall k: nat, m | Request(serve, k) == Some(Some(m)) ensures m in s {
      if k >= n {
        EndedStaysEnded(serve, n, k);
      }
    }
  }

  lemma {:induction false} MarkersBefore<T(!new), M(!new)>(serve: Upstream<T, M>, n: nat) returns (s: set<M>)
    ensures forall k: nat, m :: k < n && Request(serve, k) == Some(Some(m)) ==> m in s
  {
    if n == 0 {
      s := {};
    } else {
      s := MarkersBefore(serve, n - 1);
      if Request(serve, n - 1).Some? && Request(serve, n - 1).value.Some? {
        s := s + {Request(serve, n - 1).value.value};
      }
    }
  }
}
