/** A JavaScript plain object used as a counter, as the dashboard hook and the
    monthly chart do. Its keys are strings that are not array indices, so the
    object enumerates them in insertion order: the model keeps that order next
    to the count stored under each key. */
module Tally {

  /** `order` is the key order of `Object.keys`/`Object.entries`; `count` the stored numbers. */
  datatype Dict = Dict(order: seq<string>, count: map<string, nat>)

  const Empty: Dict := Dict([], map[])

  predicate Distinct<T(==)>(s: seq<T>) {
    forall i, j :: 0 <= i < j < |s| ==> s[i] != s[j]
  }

  /** Every key is listed once, exactly the stored keys are listed, and a stored
      count is never 0 (a key only appears when something is counted under it). */
  ghost predicate Valid(d: Dict) {
    && Distinct(d.order)
    && (forall k :: k in d.order <==> k in d.count)
    && (forall k :: k in d.count ==> d.count[k] >= 1)
  }

  /** `obj[k] || 0`: the stored count, or 0 for a key never stored. */
  function Lookup(m: map<string, nat>, k: string): nat {
    if k in m then m[k] else 0
  }

  /** `obj[k] = (obj[k] || 0) + 1`. A new key goes to the end of the key order. */
  function Increment(d: Dict, k: string): (r: Dict)
    ensures Valid(d) ==> Valid(r)
    ensures k in r.count && r.count[k] == Lookup(d.count, k) + 1
    ensures forall j :: j != k ==> Lookup(r.count, j) == Lookup(d.count, j)
    ensures k in d.count ==> r.order == d.order
    ensures k !in d.count ==> r.order == d.order + [k]
  {
    if k in d.count then Dict(d.order, d.count[k := d.count[k] + 1])
    else Dict(d.order + [k], d.count[k := 1])
  }

  /** The sum of the counts stored under `keys` (0 for a key not stored). */
  function Sum(keys: seq<string>, m: map<string, nat>): nat {
    if keys == [] then 0 else Sum(keys[..|keys| - 1], m) + Lookup(m, keys[|keys| - 1])
  }

  lemma {:induction false} SumAppend(a: seq<string>, b: seq<string>, m: map<string, nat>)
    ensures Sum(a + b, m) == Sum(a, m) + Sum(b, m)
  {
    if b == [] {
      assert a + b == a;
    } else {
      assert (a + b)[..|a + b| - 1] == a + b[..|b| - 1];
      SumAppend(a, b[..|b| - 1], m);
    }
  }

  /** Changing the count of a key that is not listed leaves the sum alone. */
  lemma {:induction false} SumOtherKey(keys: seq<string>, m: map<string, nat>, k: string, v: nat)
    requires k !in keys
    ensures Sum(keys, m[k := v]) == Sum(keys, m)
  {
    if keys != [] {
      SumOtherKey(keys[..|keys| - 1], m, k, v);
    }
  }

  /** Adding one to the count of a key listed exactly once adds one to the sum. */
  lemma {:induction false} SumBump(keys: seq<string>, m: map<string, nat>, k: string)
    requires Distinct(keys) && k in keys
    ensures Sum(keys, m[k := Lookup(m, k) + 1]) == Sum(keys, m) + 1
  {
    var last := keys[|keys| - 1];
    var init := keys[..|keys| - 1];
    if last == k {
      assert k !in init;
      SumOtherKey(init, m, k, Lookup(m, k) + 1);
    } else {
      SumBump(init, m, k);
    }
  }

  /** One increment adds exactly one to the total over the key order. */
  lemma IncrementSum(d: Dict, k: string)
    requires Valid(d)
    ensures Sum(Increment(d, k).order, Increment(d, k).count) == Sum(d.order, d.count) + 1
  {
    if k in d.count {
      SumBump(d.order, d.count, k);
    } else {
      SumOtherKey(d.order, d.count, k, 1);
      SumAppend(d.order, [k], d.count[k := 1]);
      assert [k][..0] == [];
    }
  }

  /** Removing index `i` from a sequence splits its sum around that element. */
  lemma SumRemove(t: seq<string>, i: nat, m: map<string, nat>)
    requires i < |t|
    ensures Sum(t, m) == Sum(t[..i] + t[i + 1..], m) + Lookup(m, t[i])
  {
    assert t == t[..i] + [t[i]] + t[i + 1..];
    SumAppend(t[..i] + [t[i]], t[i + 1..], m);
    SumAppend(t[..i], [t[i]], m);
    SumAppend(t[..i], t[i + 1..], m);
    assert [t[i]][..0] == [];
  }

  /** Dropping index `i` from a list without repetitions leaves a list without
      repetitions holding every other element. */
  lemma DropOne(t: seq<string>, i: nat)
    requires Distinct(t) && i < |t|
    ensures Distinct(t[..i] + t[i + 1..])
    ensures forall k :: k in t[..i] + t[i + 1..] <==> k in t && k != t[i]
  {
    var rest := t[..i] + t[i + 1..];
    forall a, b | 0 <= a < b < |rest| ensures rest[a] != rest[b] {
      var a' := if a < i then a else a + 1;
      var b' := if b < i then b else b + 1;
      assert rest[a] == t[a'] && rest[b] == t[b'];
    }
    forall k | k in rest ensures k in t && k != t[i] {
      var j :| 0 <= j < |rest| && rest[j] == k;
      var j' := if j < i then j else j + 1;
      assert t[j'] == k;
    }
    forall k | k in t && k != t[i] ensures k in rest {
      var j :| 0 <= j < |t| && t[j] == k;
      if j < i { assert rest[j] == k; } else { assert rest[j - 1] == k; }
    }
  }

  /** Two key lists without repetitions give the same sum when one lists every
      key of the other and the keys only it lists count 0. The order of keys
      therefore does not matter. */
  lemma {:induction false} SumReorder(s: seq<string>, t: seq<string>, m: map<string, nat>)
    requires Distinct(s) && Distinct(t)
    requires forall k :: k in t ==> k in s
    requires forall k :: k in s && k !in t ==> Lookup(m, k) == 0
    ensures Sum(s, m) == Sum(t, m)
  {
    if t == [] {
      SumZero(s, m);
    } else {
      var x := t[|t| - 1];
      var init := t[..|t| - 1];
      assert t == init + [x];
      assert x !in init;
      assert x in s by { assert x in t; }
      var i :| 0 <= i < |s| && s[i] == x;
      var rest := s[..i] + s[i + 1..];
      SumRemove(s, i, m);
      DropOne(s, i);
      forall k | k in init ensures k in rest {
        assert k in t && k != x;
      }
      SumReorder(rest, init, m);
    }
  }

  /** Keys that all count 0 sum to 0. */
  lemma {:induction false} SumZero(keys: seq<string>, m: map<string, nat>)
    requires forall k :: k in keys ==> Lookup(m, k) == 0
    ensures Sum(keys, m) == 0
  {
    if keys != [] {
      SumZero(keys[..|keys| - 1], m);
    }
  }

  /** Listing keys that are not stored contributes nothing. */
  lemma {:induction false} SumAbsent(keys: seq<string>, m: map<string, nat>)
    requires forall k :: k in keys ==> k !in m
    ensures Sum(keys, m) == 0
  {
    if keys != [] {
      SumAbsent(keys[..|keys| - 1], m);
    }
  }
}
