/** The dashboard hook that counts documents per calendar date
    (src/hooks/useFireStoreCountByUniqueDates.tsx). Reading the collection is
    I/O: the hook receives the fetched snapshot, one entry per document holding
    its `YYYY-MM-DD` key, or `None` for a document whose date field is missing
    (reading `.toDate()` of it throws). */
module DateCounts {
  import opened Wrappers
  import opened Tally

  /** One element of the array the hook publishes. */
  datatype DateCount = DateCount(date: string, count: nat)

  /** What `getDocs` delivered: the documents' date keys, or a rejection. */
  datatype Snapshot = Fetched(docs: seq<Option<string>>) | FetchFailed

  /** `d` counts the dated documents `docs`: each date's count (0 when absent)
      is the number of documents with that date, and the counts add up to the
      number of documents. */
  ghost predicate CountsOf(d: Dict, docs: seq<Option<string>>) {
    && Valid(d)
    && (forall k :: Lookup(d.count, k) == multiset(docs)[Some(k)])
    && Sum(d.order, d.count) == |docs|
  }

  lemma LookupStep(d: Dict, docs: seq<Option<string>>, key: string)
    requires forall k :: Lookup(d.count, k) == multiset(docs)[Some(k)]
    ensures forall k :: Lookup(Increment(d, key).count, k) == multiset(docs + [Some(key)])[Some(k)]
  {
    assert multiset(docs + [Some(key)]) == multiset(docs) + multiset{Some(key)};
  }

  /** One more document adds one to the count of its date. */
  lemma CountsOfStep(d: Dict, docs: seq<Option<string>>, key: string)
    requires CountsOf(d, docs)
    ensures CountsOf(Increment(d, key), docs + [Some(key)])
  {
    LookupStep(d, docs, key);
    SumStep(d, docs, key);
  }

  lemma SumStep(d: Dict, docs: seq<Option<string>>, key: string)
    requires Valid(d) && Sum(d.order, d.count) == |docs|
    ensures Sum(Increment(d, key).order, Increment(d, key).count) == |docs + [Some(key)]|
  {
    IncrementSum(d, key);
  }

  /** The counted dates are exactly the documents' dates. */
  lemma CountedDates(d: Dict, docs: seq<Option<string>>)
    requires CountsOf(d, docs)
    ensures forall k :: k in d.order <==> Some(k) in docs
  {
    forall k ensures k in d.order <==> Some(k) in docs {
      assert Lookup(d.count, k) == multiset(docs)[Some(k)];
    }
  }

  /** The `forEach` over the snapshot: each document adds one to the count of
      its date key. A document without a date throws, which abandons the whole
      count (`None`). */
  method CountByDate(docs: seq<Option<string>>) returns (r: Option<Dict>)
    ensures r.None? <==> None in docs
    ensures r.Some? ==> CountsOf(r.value, docs)
  {
    var d := Empty;
    var i := 0;
    while i < |docs|
      invariant 0 <= i <= |docs|
      invariant None !in docs[..i]
      invariant CountsOf(d, docs[..i])
    {
      if docs[i].None? {
        assert None in docs;
        return None;
      }
      var key := docs[i].value;
      assert docs[..i + 1] == docs[..i] + [Some(key)];
      CountsOfStep(d, docs[..i], key);
      d := Increment(d, key);
      i := i + 1;
    }
    assert docs[..i] == docs;
    r := Some(d);
  }

  /** `Object.entries(dateCounts).map(([date, count]) => ({date, count}))`. */
  function Entries(d: Dict): (r: seq<DateCount>)
    requires forall k :: k in d.order ==> k in d.count
    ensures |r| == |d.order|
    ensures forall i :: 0 <= i < |r| ==> r[i].date == d.order[i] && r[i].count == d.count[d.order[i]]
    decreases |d.order|
  {
    if d.order == [] then []
    else
      var last := d.order[|d.order| - 1];
      Entries(Dict(d.order[..|d.order| - 1], d.count)) + [DateCount(last, d.count[last])]
  }

  /** The sum of the published counts. */
  function Total(entries: seq<DateCount>): nat {
    if entries == [] then 0 else Total(entries[..|entries| - 1]) + entries[|entries| - 1].count
  }

  /** The published counts add up to the sum of the dictionary. */
  lemma {:induction false} TotalEntries(d: Dict)
    requires forall k :: k in d.order ==> k in d.count
    ensures Total(Entries(d)) == Sum(d.order, d.count)
    decreases |d.order|
  {
    if d.order != [] {
      var init := Dict(d.order[..|d.order| - 1], d.count);
      TotalEntries(init);
      var e := Entries(d);
      assert e[..|e| - 1] == Entries(init);
    }
  }

  /** No date is published twice: the entries follow the distinct key order. */
  lemma EntriesDistinct(d: Dict)
    requires Valid(d)
    ensures var e := Entries(d); forall i, j :: 0 <= i < j < |e| ==> e[i].date != e[j].date
  {
    var e := Entries(d);
    forall i, j | 0 <= i < j < |e| ensures e[i].date != e[j].date {
      assert e[i].date == d.order[i] && e[j].date == d.order[j];
    }
  }

  /** Each published count is the number of documents carrying its date. */
  lemma EntriesCount(d: Dict, docs: seq<Option<string>>)
    requires CountsOf(d, docs)
    ensures var e := Entries(d);
      forall i :: 0 <= i < |e| ==> e[i].count == multiset(docs)[Some(e[i].date)] >= 1
  {
    var e := Entries(d);
    forall i | 0 <= i < |e| ensures e[i].count == multiset(docs)[Some(e[i].date)] >= 1 {
      var k := d.order[i];
      assert e[i].date == k && e[i].count == d.count[k];
      assert Lookup(d.count, k) == multiset(docs)[Some(k)];
    }
  }

  /** Every document's date has an entry, carrying that date's count. */
  lemma EntriesCover(d: Dict, docs: seq<Option<string>>)
    requires CountsOf(d, docs)
    ensures forall k :: Some(k) in docs ==> DateCount(k, multiset(docs)[Some(k)]) in Entries(d)
  {
    var e := Entries(d);
    CountedDates(d, docs);
    forall k | Some(k) in docs
      ensures DateCount(k, multiset(docs)[Some(k)]) in e
    {
      var i :| 0 <= i < |d.order| && d.order[i] == k;
      assert Lookup(d.count, k) == multiset(docs)[Some(k)];
      assert e[i] == DateCount(k, multiset(docs)[Some(k)]);
    }
  }

  /** The published array of a count: one entry per date, no date twice,
      each count the number of documents with that date and at least 1, and
      the counts adding up to the number of documents. */
  lemma EntriesOfCounts(d: Dict, docs: seq<Option<string>>)
    requires CountsOf(d, docs)
    ensures var e := Entries(d);
      && (forall i, j :: 0 <= i < j < |e| ==> e[i].date != e[j].date)
      && (forall i :: 0 <= i < |e| ==> e[i].count == multiset(docs)[Some(e[i].date)] >= 1)
      && (forall k :: Some(k) in docs ==> DateCount(k, multiset(docs)[Some(k)]) in e)
      && Total(e) == |docs|
  {
    TotalEntries(d);
    EntriesDistinct(d);
    EntriesCount(d, docs);
    EntriesCover(d, docs);
  }

  /** The hook's state: the published array and the loading flag. */
  class CountsHook {
    var counts: seq<DateCount>
    var loading: bool

    constructor ()
      ensures counts == [] && loading
    {
      counts := [];
      loading := true;
    }

    /** `fetchCounts`: on success the array holds one entry per distinct date,
        each with the number of documents carrying that date, and the counts add
        up to the number of documents; on any failure the array is kept. The
        loading flag ends false on both paths. */
    method FetchCounts(snap: Snapshot)
      modifies this
      ensures !loading
      ensures snap.FetchFailed? ==> counts == old(counts)
      ensures snap.Fetched? && None in snap.docs ==> counts == old(counts)
      ensures snap.Fetched? && None !in snap.docs ==>
        && (forall i, j :: 0 <= i < j < |counts| ==> counts[i].date != counts[j].date)
        && (forall i :: 0 <= i < |counts| ==> counts[i].count == multiset(snap.docs)[Some(counts[i].date)] >= 1)
        && (forall k :: Some(k) in snap.docs ==> DateCount(k, multiset(snap.docs)[Some(k)]) in counts)
        && Total(counts) == |snap.docs|
    {
      if snap.FetchFailed? {
        loading := false;
        return;
      }
      var r := CountByDate(snap.docs);
      if r.None? {
        loading := false;
        return;
      }
      var entries := Entries(r.value);
      EntriesOfCounts(r.value, snap.docs);
      counts := entries;
      loading := false;
    }
  }
}
