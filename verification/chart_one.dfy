/** The dashboard chart of new trainees per month
    (src/components/Charts/ChartOne.tsx): active users are counted per start
    month, interns and part-timers separately, and the two counts become two
    series over the same list of months. Fetching the users is I/O: the model
    receives the fetched documents. */
module ChartOne {
  import opened Tally

  /** A fetched user: the year and 0-based month of its start date, and its type. */
  datatype UserDoc = UserDoc(startYear: int, startMonth: int, traineeType: string)

  ghost predicate ValidDoc(d: UserDoc) {
    0 <= d.startMonth < 12
  }

  // ----- The month key -----

  function DigitChar(d: nat): char
    requires d < 10
  {
    "0123456789"[d]
  }

  /** Decimal digits of a natural number, without leading zeros. */
  function NatToString(n: nat): (s: string)
    ensures |s| >= 1
    ensures forall i :: 0 <= i < |s| ==> '0' <= s[i] <= '9'
    ensures n < 10 <==> |s| == 1
  {
    if n < 10 then [DigitChar(n)] else NatToString(n / 10) + [DigitChar(n % 10)]
  }

  /** A template literal's rendering of an integer. */
  function IntToString(i: int): (s: string)
    ensures |s| >= 1 && (s[0] == '-' <==> i < 0)
  {
    if i < 0 then "-" + NatToString(-i) else NatToString(i)
  }

  /** `${year}-${month + 1}`: the month is 1-based and not zero-padded. */
  function MonthKey(year: int, month: int): string
    requires 0 <= month < 12
  {
    IntToString(year) + "-" + NatToString(month + 1)
  }

  lemma {:induction false} NatToStringInjective(a: nat, b: nat)
    requires NatToString(a) == NatToString(b)
    ensures a == b
  {
    var s, t := NatToString(a), NatToString(b);
    if a >= 10 && b >= 10 {
      assert s[..|s| - 1] == NatToString(a / 10);
      assert t[..|t| - 1] == NatToString(b / 10);
      NatToStringInjective(a / 10, b / 10);
      assert "0123456789"[a % 10] == "0123456789"[b % 10];
    } else if a < 10 && b < 10 {
      assert "0123456789"[a] == "0123456789"[b];
    }
  }

  lemma IntToStringInjective(a: int, b: int)
    requires IntToString(a) == IntToString(b)
    ensures a == b
  {
    var s, t := IntToString(a), IntToString(b);
    if a < 0 {
      assert s[1..] == NatToString(-a) && t[1..] == NatToString(-b);
      NatToStringInjective(-a, -b);
    } else {
      NatToStringInjective(a, b);
    }
  }

  /** Cutting at a separator that does not occur after it recovers both parts. */
  lemma SplitAtLastSeparator(a: string, b: string, a': string, b': string, c: char)
    requires c !in b && c !in b'
    requires a + [c] + b == a' + [c] + b'
    ensures a == a' && b == b'
  {
    var s := a + [c] + b;
    assert s[|a|] == c && s[|a'|] == c;
    assert forall j :: |a| < j < |s| ==> s[j] == b[j - |a| - 1];
    assert forall j :: |a'| < j < |s| ==> s[j] == b'[j - |a'| - 1];
    assert |a| == |a'|;
    assert a == s[..|a|] && a' == s[..|a'|];
    assert b == s[|a| + 1..] && b' == s[|a'| + 1..];
  }

  /** Different months always get different keys, so each key counts one month. */
  lemma MonthKeyInjective(y: int, m: int, y': int, m': int)
    requires 0 <= m < 12 && 0 <= m' < 12
    requires MonthKey(y, m) == MonthKey(y', m')
    ensures y == y' && m == m'
  {
    var b, b' := NatToString(m + 1), NatToString(m' + 1);
    assert '-' !in b && '-' !in b';
    assert IntToString(y) + "-" + b == IntToString(y) + ['-'] + b;
    assert IntToString(y') + "-" + b' == IntToString(y') + ['-'] + b';
    SplitAtLastSeparator(IntToString(y), b, IntToString(y'), b', '-');
    IntToStringInjective(y, y');
    NatToStringInjective(m + 1, m' + 1);
  }

  // ----- Counting -----

  /** The month keys of the documents of one trainee type, in document order. */
  ghost function KeysOfType(docs: seq<UserDoc>, t: string): seq<string>
    requires forall i :: 0 <= i < |docs| ==> ValidDoc(docs[i])
  {
    if docs == [] then []
    else
      var d := docs[|docs| - 1];
      assert ValidDoc(d);
      KeysOfType(docs[..|docs| - 1], t) + (if d.traineeType == t then [MonthKey(d.startYear, d.startMonth)] else [])
  }

  /** `[...new Set(keys)]`: the first occurrence of each key, in order. */
  function Dedup(keys: seq<string>): (r: seq<string>)
    ensures Distinct(r)
    ensures forall k :: k in r <==> k in keys
  {
    if keys == [] then []
    else
      var init := Dedup(keys[..|keys| - 1]);
      var k := keys[|keys| - 1];
      assert forall j :: j in keys <==> j in keys[..|keys| - 1] || j == k;
      if k in init then init else init + [k]
  }

  /** The elements of `b` that are not in `a`, in order. */
  function NotIn(b: seq<string>, a: seq<string>): (r: seq<string>)
    ensures forall k :: k in r <==> k in b && k !in a
  {
    if b == [] then []
    else
      var k := b[|b| - 1];
      NotIn(b[..|b| - 1], a) + (if k in a then [] else [k])
  }

  /** A list without repetitions is its own deduplication. */
  lemma {:induction false} DedupDistinct(s: seq<string>)
    requires Distinct(s)
    ensures Dedup(s) == s
  {
    if s != [] {
      var init := s[..|s| - 1];
      DedupDistinct(init);
      assert s[|s| - 1] !in init;
      assert s == init + [s[|s| - 1]];
    }
  }

  /** Merging two key lists without repetitions keeps the first list, then
      the keys of the second not already present. */
  lemma {:induction false} DedupMerge(a: seq<string>, b: seq<string>)
    requires Distinct(a) && Distinct(b)
    ensures Dedup(a + b) == a + NotIn(b, a)
  {
    if b == [] {
      assert a + b == a;
      DedupDistinct(a);
    } else {
      var init := b[..|b| - 1];
      var k := b[|b| - 1];
      assert (a + b)[..|a + b| - 1] == a + init;
      DedupMerge(a, init);
      assert k !in init;
    }
  }

  /** Appending a key to a list extends its deduplication only for a new key. */
  lemma DedupAppend(s: seq<string>, k: string)
    ensures Dedup(s + [k]) == if k in s then Dedup(s) else Dedup(s) + [k]
  {
    assert (s + [k])[..|s|] == s;
  }

  /** `keys` have been counted into `d`: the key order is the order of first
      occurrence, each count is the number of occurrences, and the counts add
      up to the number of keys. */
  ghost predicate Counted(d: Dict, keys: seq<string>) {
    && Valid(d)
    && d.order == Dedup(keys)
    && (forall k :: Lookup(d.count, k) == multiset(keys)[k])
    && Sum(d.order, d.count) == |keys|
  }

  lemma EmptyCounted()
    ensures Counted(Empty, [])
  {
  }

  lemma CountedOrderStep(d: Dict, keys: seq<string>, k: string)
    requires Valid(d) && d.order == Dedup(keys)
    ensures Increment(d, k).order == Dedup(keys + [k])
  {
    DedupAppend(keys, k);
    assert k in d.count <==> k in keys;
  }

  lemma CountedLookupStep(d: Dict, keys: seq<string>, k: string)
    requires forall j :: Lookup(d.count, j) == multiset(keys)[j]
    ensures forall j :: Lookup(Increment(d, k).count, j) == multiset(keys + [k])[j]
  {
    assert multiset(keys + [k]) == multiset(keys) + multiset{k};
  }

  /** `counts[key] = (counts[key] || 0) + 1` counts one more key. */
  lemma CountedStep(d: Dict, keys: seq<string>, k: string)
    requires Counted(d, keys)
    ensures Counted(Increment(d, k), keys + [k])
  {
    CountedOrderStep(d, keys, k);
    CountedLookupStep(d, keys, k);
    IncrementSum(d, k);
  }

  /** Counting the next document for type `t`. */
  lemma CountNext(d: Dict, docs: seq<UserDoc>, i: nat, t: string)
    requires i < |docs|
    requires forall j :: 0 <= j < |docs| ==> ValidDoc(docs[j])
    requires Counted(d, KeysOfType(docs[..i], t))
    ensures ValidDoc(docs[i])
    ensures docs[i].traineeType == t ==>
      Counted(Increment(d, MonthKey(docs[i].startYear, docs[i].startMonth)), KeysOfType(docs[..i + 1], t))
    ensures docs[i].traineeType != t ==> Counted(d, KeysOfType(docs[..i + 1], t))
  {
    KeysOfTypeStep(docs, i, t);
    var keys, keys' := KeysOfType(docs[..i], t), KeysOfType(docs[..i + 1], t);
    if docs[i].traineeType == t {
      var k := MonthKey(docs[i].startYear, docs[i].startMonth);
      assert keys' == keys + [k];
      CountedStep(d, keys, k);
    } else {
      assert keys' == keys;
    }
  }

  lemma KeysOfTypeStep(docs: seq<UserDoc>, i: nat, t: string)
    requires i < |docs|
    requires forall j :: 0 <= j < |docs| ==> ValidDoc(docs[j])
    ensures ValidDoc(docs[i])
    ensures KeysOfType(docs[..i + 1], t) == KeysOfType(docs[..i], t)
      + (if docs[i].traineeType == t then [MonthKey(docs[i].startYear, docs[i].startMonth)] else [])
  {
    assert docs[..i + 1][..i] == docs[..i];
  }

  /** The `forEach` over the fetched users: an intern adds one to the intern
      count of its month key, a part-timer to the part-time count, any other
      type to neither. */
  method CountByMonth(docs: seq<UserDoc>) returns (intern: Dict, partTime: Dict)
    requires forall i :: 0 <= i < |docs| ==> ValidDoc(docs[i])
    ensures Counted(intern, KeysOfType(docs, "intern"))
    ensures Counted(partTime, KeysOfType(docs, "part-time"))
  {
    intern, partTime := Empty, Empty;
    EmptyCounted();
    var i := 0;
    while i < |docs|
      invariant 0 <= i <= |docs|
      invariant Counted(intern, KeysOfType(docs[..i], "intern"))
      invariant Counted(partTime, KeysOfType(docs[..i], "part-time"))
    {
      var d := docs[i];
      CountNext(intern, docs, i, "intern");
      CountNext(partTime, docs, i, "part-time");
      var monthYear := MonthKey(d.startYear, d.startMonth);
      if d.traineeType == "intern" {
        intern := Increment(intern, monthYear);
      }
      if d.traineeType == "part-time" {
        partTime := Increment(partTime, monthYear);
      }
      i := i + 1;
    }
    assert docs[..i] == docs;
  }

  // ----- The series -----

  /** `months.map(month => counts[month] || 0)`. */
  function Series(months: seq<string>, counts: map<string, nat>): (r: seq<nat>)
    ensures |r| == |months|
    ensures forall i :: 0 <= i < |months| ==> r[i] == Lookup(counts, months[i])
  {
    if months == [] then []
    else Series(months[..|months| - 1], counts) + [Lookup(counts, months[|months| - 1])]
  }

  function Total(values: seq<nat>): nat {
    if values == [] then 0 else Total(values[..|values| - 1]) + values[|values| - 1]
  }

  lemma {:induction false} TotalSeries(months: seq<string>, counts: map<string, nat>)
    ensures Total(Series(months, counts)) == Sum(months, counts)
  {
    if months != [] {
      var init := months[..|months| - 1];
      TotalSeries(init, counts);
      assert Series(months, counts)[..|months| - 1] == Series(init, counts);
    }
  }

  /** Over a list of months without repetitions that lists every counted key,
      each series value is the number of keys for its month and the series
      adds up to the number of keys. */
  lemma SeriesOfCounted(months: seq<string>, d: Dict, keys: seq<string>)
    requires Counted(d, keys) && Distinct(months)
    requires forall k :: k in keys ==> k in months
    ensures forall i :: 0 <= i < |months| ==> Series(months, d.count)[i] == multiset(keys)[months[i]]
    ensures Total(Series(months, d.count)) == |keys|
  {
    TotalSeries(months, d.count);
    SumReorder(months, d.order, d.count);
  }

  /** `fetchData` after the fetch: the chart's categories (`uniqueMonths`) and
      its two series. Every month with an intern or part-time start appears
      once; intern months come first; each series value is the number of
      documents of that type starting that month, and each series adds up to
      the number of documents of its type. */
  method ChartSeries(docs: seq<UserDoc>) returns (months: seq<string>, internData: seq<nat>, partTimeData: seq<nat>)
    requires forall i :: 0 <= i < |docs| ==> ValidDoc(docs[i])
    ensures var interns, partTimers := KeysOfType(docs, "intern"), KeysOfType(docs, "part-time");
      && months == Dedup(interns) + NotIn(Dedup(partTimers), interns)
      && Distinct(months)
      && (forall k :: k in months <==> k in interns || k in partTimers)
      && |internData| == |months| && |partTimeData| == |months|
      && (forall i :: 0 <= i < |months| ==> internData[i] == multiset(interns)[months[i]])
      && (forall i :: 0 <= i < |months| ==> partTimeData[i] == multiset(partTimers)[months[i]])
      && Total(internData) == |interns|
      && Total(partTimeData) == |partTimers|
  {
    var intern, partTime := CountByMonth(docs);
    ghost var interns, partTimers := KeysOfType(docs, "intern"), KeysOfType(docs, "part-time");
    DedupMerge(intern.order, partTime.order);
    NotInSameMembers(partTime.order, intern.order, interns);
    months := Dedup(intern.order + partTime.order);
    internData := Series(months, intern.count);
    partTimeData := Series(months, partTime.count);
    SeriesOfCounted(months, intern, interns);
    SeriesOfCounted(months, partTime, partTimers);
  }

  /** `NotIn` depends only on which keys the second list holds. */
  lemma {:induction false} NotInSameMembers(b: seq<string>, a: seq<string>, a': seq<string>)
    requires forall k :: k in a <==> k in a'
    ensures NotIn(b, a) == NotIn(b, a')
  {
    if b != [] {
      NotInSameMembers(b[..|b| - 1], a, a');
    }
  }
}
